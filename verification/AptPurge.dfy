/** apt_graph.c: runs that mix submissions and purges. What counts for a payload are the calls since its
    cluster was last removed. */
module AptPurge {
  import opened AptGraph

  datatype Event = Submit(call: Call) | Purge(cutoff: int)

  ghost predicate Sound(g: Graph) { |g.clusters| <= MAX_CLUSTERS && UniqueHashes(g.clusters) && Wf(g.clusters) }

  ghost function After(g: Graph, e: Event): Graph
    requires Wf(g.clusters)
  {
    match e
    case Submit(call) => Step(g, call)
    case Purge(cutoff) => g.(clusters := Purged(g.clusters, 0, cutoff))
  }

  lemma AfterSound(g: Graph, e: Event)
    requires Sound(g)
    ensures Sound(After(g, e))
  {
    hide Touch, Verdict, Scan, Recent;
    match e {
      case Submit(call) =>
        var cs := Admit(g.clusters, call.hash);
        AdmitKeeps(g.clusters, call.hash);
        var i := Scan(cs, call.hash);
        if i < |cs| {
          TouchKeeps(cs[i], call);
        }
      case Purge(cutoff) =>
        PurgedIsRecent(g.clusters, 0, cutoff);
    }
  }

  ghost function Run(events: seq<Event>): (g: Graph)
    ensures Sound(g)
  {
    if events == [] then Graph([], 0, 0)
    else
      var n := |events| - 1;
      AfterSound(Run(events[..n]), events[n]);
      After(Run(events[..n]), events[n])
  }

  // The payload has a cluster.
  ghost predicate Has(g: Graph, x: nat) { Scan(g.clusters, x) < |g.clusters| }

  // The calls with the payload since its cluster was made.
  ghost function Since(events: seq<Event>, x: nat): seq<Call> {
    if events == [] then []
    else
      var n := |events| - 1;
      match events[n]
      case Submit(call) =>
        if call.hash == x && Has(Run(events), x) then Since(events[..n], x) + [call] else Since(events[..n], x)
      case Purge(_) => if Has(Run(events), x) then Since(events[..n], x) else []
  }

  lemma {:induction false} SinceCalls(events: seq<Event>, x: nat)
    ensures forall c | c in Since(events, x) :: c.hash == x
  {
    hide Run, Has;
    if events != [] {
      SinceCalls(events[..|events| - 1], x);
    }
  }

  // A call of the payload is among the first, so it has its cluster in a run of its own.
  lemma OwnHash(h: seq<Call>, x: nat)
    requires h != [] && forall c | c in h :: c.hash == x
    ensures x in Hashes(h)
  {
    assert h[0] in h;
    AllAdmitted(h, {x}, x);
  }

  // ---------- What each step does to one payload ----------

  lemma HasAt(cs: seq<Cluster>, x: nat, i: nat)
    requires i < |cs| && cs[i].hash == x
    ensures Scan(cs, x) < |cs|
  {
  }

  lemma {:induction false} RecentHas(cs: seq<Cluster>, cutoff: int, c: Cluster)
    ensures c in Recent(cs, cutoff) <==> c in cs && c.last >= cutoff
  {
    if cs != [] {
      var n := |cs| - 1;
      RecentHas(cs[..n], cutoff, c);
      assert cs == cs[..n] + [cs[n]];
    }
  }

  lemma PurgeKeeps(g: Graph, cutoff: int, k: nat)
    requires Sound(g) && k < |After(g, Purge(cutoff)).clusters|
    ensures After(g, Purge(cutoff)).clusters[k] in g.clusters
  {
    hide Recent, Purged, Wf, UniqueHashes;
    PurgedIsRecent(g.clusters, 0, cutoff);
    var ds := Purged(g.clusters, 0, cutoff);
    assert ds[k] in multiset(ds);
    RecentHas(g.clusters, cutoff, ds[k]);
  }

  // The cluster was last seen with the last of the calls.
  ghost predicate Seen(c: Cluster, h: seq<Call>) { h != [] && c.last == h[|h| - 1].ts }

  // Every cluster mirrors the calls since it was made, and a payload without one has none.
  ghost predicate Follows(events: seq<Event>) {
    && (forall c | c in Run(events).clusters :: Mirrors(c, Since(events, c.hash)) && Seen(c, Since(events, c.hash)))
    && (forall x | !Has(Run(events), x) :: Since(events, x) == [])
  }

  lemma RunMore(events: seq<Event>, e: Event)
    ensures Run(events + [e]) == After(Run(events), e)
  {
    assert (events + [e])[..|events|] == events;
  }

  lemma SinceSubmit(events: seq<Event>, call: Call, x: nat)
    ensures Since(events + [Submit(call)], x) ==
      if call.hash == x && Has(Run(events + [Submit(call)]), x) then Since(events, x) + [call] else Since(events, x)
  {
    hide Run, Has;
    assert (events + [Submit(call)])[..|events|] == events;
  }

  lemma SincePurge(events: seq<Event>, cutoff: int, x: nat)
    ensures Since(events + [Purge(cutoff)], x) == if Has(Run(events + [Purge(cutoff)]), x) then Since(events, x) else []
  {
    hide Run, Has;
    assert (events + [Purge(cutoff)])[..|events|] == events;
  }

  // The cluster a call is recorded in, and what becomes of it.
  ghost function Found(g: Graph, call: Call): Cluster
    requires Scan(Admit(g.clusters, call.hash), call.hash) < |Admit(g.clusters, call.hash)|
  {
    var cs := Admit(g.clusters, call.hash);
    cs[Scan(cs, call.hash)]
  }

  ghost function Recorded(c: Cluster, call: Call): Cluster
    requires WellFormed(c)
  {
    var d := Touch(c, call);
    var v := Verdict(d, call.ts);
    if v == Clean then d else d.(alerted := true, sync := d.sync || v == SyncApt)
  }

  // Room is found for the payload, in its own cluster or in a new one.
  ghost predicate Room(g: Graph, x: nat) { Has(g, x) || |g.clusters| < MAX_CLUSTERS }

  lemma SubmitIs(g: Graph, call: Call)
    requires Sound(g)
    ensures var x, cs := call.hash, Admit(g.clusters, call.hash);
      && (Has(After(g, Submit(call)), x) <==> Room(g, x)) && (Room(g, x) <==> Scan(cs, x) < |cs|)
      && (!Room(g, x) ==> After(g, Submit(call)) == g && Outcome(g, call) == Clean)
      && (Room(g, x) ==>
            && var c := Found(g, call);
               && WellFormed(c) && c.hash == x && (if Has(g, x) then c in g.clusters else c == Fresh(x))
               && Outcome(g, call) == Verdict(Touch(c, call), call.ts)
               && forall d | d in After(g, Submit(call)).clusters ::
                 d == Recorded(c, call) || (d in g.clusters && d.hash != x))
  {
    hide Touch, Verdict, Scan;
    var x, cs := call.hash, Admit(g.clusters, call.hash);
    AdmitKeeps(g.clusters, x);
    if Room(g, x) {
      var i := Scan(cs, x);
      var c := Found(g, call);
      TouchKeeps(c, call);
      HasAt(After(g, Submit(call)).clusters, x, i);
      forall k | 0 <= k < |cs| && k != i
        ensures cs[k] in g.clusters && cs[k].hash != x
      {
        OtherHash(cs, k, x);
      }
    }
  }

  // The other payloads keep their clusters, and get none.
  lemma SubmitHas(g: Graph, call: Call, y: nat)
    requires Sound(g) && y != call.hash
    ensures Has(After(g, Submit(call)), y) <==> Has(g, y)
  {
    hide Touch, Verdict, Scan;
    var x, cs, ds := call.hash, Admit(g.clusters, call.hash), After(g, Submit(call)).clusters;
    AdmitKeeps(g.clusters, x);
    if Scan(cs, x) < |cs| {
      TouchKeeps(cs[Scan(cs, x)], call);
      assert |ds| == |cs| && forall k | 0 <= k < |cs| :: ds[k].hash == cs[k].hash;
    }
    if Has(g, y) {
      HasAt(ds, y, Scan(g.clusters, y));
    }
    if Has(After(g, Submit(call)), y) {
      HasAt(g.clusters, y, Scan(ds, y));
    }
  }

  // ---------- The run follows the calls ----------

  // The call brings the fifth sender of its payload since the cluster was made.
  ghost predicate FifthSince(events: seq<Event>, call: Call) {
    var senders := Senders(Since(events, call.hash), call.hash);
    Room(Run(events), call.hash) && |senders| == MIN_CLUSTER_IPS - 1 && call.ip !in senders
  }

  lemma RecordedFollows(c: Cluster, h: seq<Call>, call: Call)
    requires Mirrors(c, h) && WellFormed(c) && c.hash == call.hash && forall d | d in h :: d.hash == call.hash
    ensures Mirrors(Recorded(c, call), h + [call]) && Recorded(c, call).hash == call.hash
    ensures Recorded(c, call).last == call.ts
    ensures Verdict(Touch(c, call), call.ts) != Clean <==>
      |Senders(h, call.hash)| == MIN_CLUSTER_IPS - 1 && call.ip !in Senders(h, call.hash)
  {
    hide Mirrors, Touch, Verdict, Hashes, Senders, Fifth;
    OwnHash(h + [call], call.hash);
    TouchSeen(c, call);
    TouchedCluster(c, h, call);
    TouchKeeps(c, call);
    FifthIsFifthSender(h, call);
  }

  lemma TouchSeen(c: Cluster, call: Call)
    requires WellFormed(c)
    ensures Touch(c, call).last == call.ts
  {
  }

  lemma FreshMirrors(x: nat)
    ensures Mirrors(Fresh(x), [])
  {
  }

  lemma CallFollows(events: seq<Event>, call: Call)
    requires Follows(events)
    ensures Outcome(Run(events), call) != Clean <==> FifthSince(events, call)
    ensures Follows(events + [Submit(call)])
  {
    hide Run, Since, Mirrors, Outcome, Verdict, Touch, Recorded, Has, Senders, After, Scan;
    var g, x, more := Run(events), call.hash, events + [Submit(call)];
    RunMore(events, Submit(call));
    SubmitIs(g, call);
    SinceCalls(events, x);
    SinceSubmit(events, call, x);
    if Room(g, x) {
      var c := Found(g, call);
      FreshMirrors(x);
      RecordedFollows(c, Since(events, x), call);
    }
    forall d | d in Run(more).clusters
      ensures Mirrors(d, Since(more, d.hash)) && Seen(d, Since(more, d.hash))
    {
      SinceSubmit(events, call, d.hash);
    }
    forall y | !Has(Run(more), y)
      ensures Since(more, y) == []
    {
      SinceSubmit(events, call, y);
      if y != x {
        SubmitHas(g, call, y);
      }
    }
  }

  lemma PurgeFollows(events: seq<Event>, cutoff: int)
    requires Follows(events)
    ensures Follows(events + [Purge(cutoff)])
  {
    hide Run, Since, Mirrors, Scan, After;
    var g, more := Run(events), events + [Purge(cutoff)];
    RunMore(events, Purge(cutoff));
    var ds := Run(more).clusters;
    forall d | d in ds
      ensures Mirrors(d, Since(more, d.hash)) && Seen(d, Since(more, d.hash))
    {
      var k :| 0 <= k < |ds| && ds[k] == d;
      PurgeKeeps(g, cutoff, k);
      HasAt(ds, d.hash, k);
      SincePurge(events, cutoff, d.hash);
    }
    forall y | !Has(Run(more), y)
      ensures Since(more, y) == []
    {
      SincePurge(events, cutoff, y);
    }
  }

  lemma {:induction false} AlwaysFollows(events: seq<Event>)
    ensures Follows(events)
  {
    if events != [] {
      var n := |events| - 1;
      AlwaysFollows(events[..n]);
      hide Follows;
      assert events == events[..n] + [events[n]];
      match events[n] {
        case Submit(call) => CallFollows(events[..n], call);
        case Purge(cutoff) => PurgeFollows(events[..n], cutoff);
      }
    }
  }

  // ---------- Reports ----------

  // In every run, whatever was purged: a call reports its payload exactly when it brings the fifth sender
  // since the cluster was made.
  lemma ReportsExactly(events: seq<Event>, call: Call)
    ensures Outcome(Run(events), call) != Clean <==> FifthSince(events, call)
  {
    AlwaysFollows(events);
    hide Outcome, Run, FifthSince, Follows;
    CallFollows(events, call);
  }

  ghost predicate Reports(events: seq<Event>, k: nat, x: nat)
    requires k < |events|
  {
    events[k].Submit? && events[k].call.hash == x && Outcome(Run(events[..k]), events[k].call) != Clean
  }

  // The purge at k removes the cluster of the payload.
  ghost predicate Removed(events: seq<Event>, k: nat, x: nat)
    requires k < |events|
  {
    events[k].Purge? && Has(Run(events[..k]), x) && !Has(Run(events[..k + 1]), x)
  }

  ghost predicate Spent(events: seq<Event>, x: nat) {
    Has(Run(events), x) && |Senders(Since(events, x), x)| >= MIN_CLUSTER_IPS
  }

  lemma SendersMore(h: seq<Call>, call: Call)
    ensures Senders(h + [call], call.hash) == Senders(h, call.hash) + {call.ip}
  {
    SendersStep(h + [call], call.hash);
    assert (h + [call])[..|h|] == h;
  }

  lemma ReportSpends(events: seq<Event>, call: Call)
    requires Outcome(Run(events), call) != Clean
    ensures Spent(events + [Submit(call)], call.hash)
  {
    hide Outcome, Run, Since, Senders, Has;
    ReportsExactly(events, call);
    RunMore(events, Submit(call));
    SubmitIs(Run(events), call);
    SinceSubmit(events, call, call.hash);
    SendersMore(Since(events, call.hash), call);
    OneMore(Senders(Since(events, call.hash), call.hash), call.ip);
  }

  lemma CallKeepsSpent(events: seq<Event>, call: Call, x: nat)
    requires Spent(events, x)
    ensures Spent(events + [Submit(call)], x)
  {
    hide Run, Since, Senders, Has;
    RunMore(events, Submit(call));
    SubmitIs(Run(events), call);
    SinceSubmit(events, call, x);
    if call.hash == x {
      SendersMore(Since(events, x), call);
      OneMore(Senders(Since(events, x), x), call.ip);
    } else {
      SubmitHas(Run(events), call, x);
    }
  }

  lemma {:induction false} StaysSpent(events: seq<Event>, i: nat, j: nat, x: nat)
    requires i < j <= |events| && Reports(events, i, x) && forall k | i < k < j :: !Removed(events, k, x)
    ensures Spent(events[..j], x)
    decreases j
  {
    hide Run, Since, Senders, Has, Outcome;
    var m := j - 1;
    assert events[..j] == events[..m] + [events[m]];
    if m == i {
      ReportSpends(events[..m], events[m].call);
    } else {
      StaysSpent(events, i, m, x);
      if events[m].Submit? {
        CallKeepsSpent(events[..m], events[m].call, x);
      } else {
        assert !Removed(events, m, x);
        SincePurge(events[..m], events[m].cutoff, x);
      }
    }
  }

  // Between two reports of one payload its cluster was removed.
  lemma OncePerCluster(events: seq<Event>, i: nat, j: nat, x: nat)
    requires i < j < |events| && Reports(events, i, x) && Reports(events, j, x)
    ensures exists k | i < k < j :: Removed(events, k, x)
  {
    hide Run, Since, Senders, Outcome, Removed;
    ReportsExactly(events[..j], events[j].call);
    if forall k | i < k < j :: !Removed(events, k, x) {
      StaysSpent(events, i, j, x);
    }
  }

  // A purge removes the payloads whose last call lies before the cutoff, and no others.
  lemma RemovedExactly(events: seq<Event>, cutoff: int, x: nat)
    requires Has(Run(events), x)
    ensures var h := Since(events, x);
      h != [] && (Has(Run(events + [Purge(cutoff)]), x) <==> h[|h| - 1].ts >= cutoff)
  {
    hide Run, Since, Mirrors, Scan, Purged, Recent;
    AlwaysFollows(events);
    RunMore(events, Purge(cutoff));
    var cs := Run(events).clusters;
    var c, ds := cs[Scan(cs, x)], Purged(cs, 0, cutoff);
    PurgedIsRecent(cs, 0, cutoff);
    RecentHas(cs, cutoff, c);
    if Scan(ds, x) < |ds| {
      var d := ds[Scan(ds, x)];
      assert d in multiset(ds);
      RecentHas(cs, cutoff, d);
    }
    if c.last >= cutoff {
      assert c in multiset(ds);
      var k :| 0 <= k < |ds| && ds[k] == c;
      HasAt(ds, x, k);
    }
  }

  // ---------- A purged payload is reported again ----------

  ghost function Submits(calls: seq<Call>): seq<Event> { seq(|calls|, k requires 0 <= k < |calls| => Submit(calls[k])) }

  // Calls with one payload from different addresses.
  predicate Distinct(calls: seq<Call>, x: nat) {
    && (forall k | 0 <= k < |calls| :: calls[k].hash == x)
    && (forall i, j | 0 <= i < j < |calls| :: calls[i].ip != calls[j].ip)
  }

  lemma {:induction false} SinceSubmits(events: seq<Event>, calls: seq<Call>, x: nat)
    requires Distinct(calls, x) && !Has(Run(events), x) && Room(Run(events), x)
    ensures Room(Run(events + Submits(calls)), x) && Since(events + Submits(calls), x) == calls
  {
    hide Run, Has, Since;
    if calls == [] {
      assert events + Submits(calls) == events;
      AlwaysFollows(events);
    } else {
      var n := |calls| - 1;
      SinceSubmits(events, calls[..n], x);
      assert events + Submits(calls) == events + Submits(calls[..n]) + [Submit(calls[n])];
      assert calls == calls[..n] + [calls[n]];
      SinceOneMore(events + Submits(calls[..n]), calls[n]);
    }
  }

  lemma SinceOneMore(events: seq<Event>, call: Call)
    requires Room(Run(events), call.hash)
    ensures Room(Run(events + [Submit(call)]), call.hash)
    ensures Since(events + [Submit(call)], call.hash) == Since(events, call.hash) + [call]
  {
    hide Run, Has, Since, After;
    RunMore(events, Submit(call));
    SubmitIs(Run(events), call);
    SinceSubmit(events, call, call.hash);
  }

  lemma {:induction false} DistinctSenders(calls: seq<Call>, x: nat)
    requires Distinct(calls, x)
    ensures |Senders(calls, x)| == |calls|
  {
    hide Senders;
    if calls == [] {
      NothingSent(x);
    } else {
      var n := |calls| - 1;
      DistinctSenders(calls[..n], x);
      SendersMore(calls[..n], calls[n]);
      OneMore(Senders(calls[..n], x), calls[n].ip);
      assert calls == calls[..n] + [calls[n]];
      NotYetSender(calls, x, n);
    }
  }

  lemma NotYetSender(calls: seq<Call>, x: nat, n: nat)
    requires Distinct(calls, x) && n < |calls|
    ensures calls[n].ip !in Senders(calls[..n], x)
  {
  }

  // Whatever the run was, five different senders of a payload that has no cluster report it.
  lemma ReportedAgain(events: seq<Event>, calls: seq<Call>, x: nat)
    requires |calls| == MIN_CLUSTER_IPS && Distinct(calls, x) && !Has(Run(events), x) && Room(Run(events), x)
    ensures Outcome(Run(events + Submits(calls[..MIN_CLUSTER_IPS - 1])), calls[MIN_CLUSTER_IPS - 1]) != Clean
  {
    hide Run, Has, Since, Senders, Outcome;
    var n := MIN_CLUSTER_IPS - 1;
    SinceSubmits(events, calls[..n], x);
    DistinctSenders(calls[..n], x);
    NotYetSender(calls, x, n);
    ReportsExactly(events + Submits(calls[..n]), calls[n]);
  }
}
