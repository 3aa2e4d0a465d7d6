/** apt_graph.c: payload clusters. Requests with the same payload hash form a cluster; the fifth
    address in a cluster raises its one alert. Hashing the payload, reading the address and the
    entropy of the payload are inputs. */
module AptGraph {

  const MIN_CLUSTER_IPS := 5
  const SYNC_WINDOW := 2
  const MAX_IPS := 32
  const BUCKETS := 16384
  const MAX_CLUSTERS := 512

  type Ip = nat
  datatype Result = Clean | Cluster5 | SyncApt | Entropy
  datatype Cluster = Cluster(hash: nat, ips: seq<Ip>, times: seq<int>, first: int, last: int,
    entropy: real, sync: bool, alerted: bool)
  datatype Call = Call(ip: Ip, hash: nat, ent: real, ts: int)

  // The state without the bucket table.
  datatype Graph = Graph(clusters: seq<Cluster>, total: nat, detections: nat)

  // ---------- Specification ----------

  // Where a scan from the front finds the hash; the length when it does not.
  function Scan(cs: seq<Cluster>, hash: nat): (i: nat)
    ensures i <= |cs| && (i < |cs| ==> cs[i].hash == hash)
    ensures forall k | 0 <= k < i :: cs[k].hash != hash
  {
    if cs == [] || cs[0].hash == hash then 0 else 1 + Scan(cs[1..], hash)
  }

  predicate UniqueHashes(cs: seq<Cluster>) {
    forall i, j | 0 <= i < j < |cs| :: cs[i].hash != cs[j].hash
  }

  function Fresh(hash: nat): Cluster { Cluster(hash, [], [], 0, 0, 0.0, false, false) }

  // The clusters in which the call is recorded; None when the table of clusters is full.
  function Admit(cs: seq<Cluster>, hash: nat): seq<Cluster> {
    if Scan(cs, hash) == |cs| && |cs| < MAX_CLUSTERS then cs + [Fresh(hash)] else cs
  }

  function Position<T(==)>(s: seq<T>, x: T): (i: nat)
    ensures i <= |s| && (i < |s| ==> s[i] == x) && (forall k | 0 <= k < i :: s[k] != x)
  {
    if s == [] || s[0] == x then 0 else 1 + Position(s[1..], x)
  }

  predicate WellFormed(c: Cluster) { |c.times| == |c.ips| <= MAX_IPS }

  // cluster_add_ip
  function AddIp(c: Cluster, ip: Ip, ts: int): Cluster
    requires WellFormed(c)
  {
    var i := Position(c.ips, ip);
    if i < |c.ips| then c.(times := c.times[i := ts])
    else if |c.ips| >= MAX_IPS then c
    else c.(ips := c.ips + [ip], times := c.times + [ts])
  }

  // How many members were active in the window.
  function Active(times: seq<int>, now: int): nat {
    if times == [] then 0
    else
      var n := |times| - 1;
      Active(times[..n], now) + if times[n] > 0 && now - times[n] <= SYNC_WINDOW then 1 else 0
  }

  function Touch(c: Cluster, call: Call): Cluster
    requires WellFormed(c)
  {
    var d := AddIp(c.(first := if c.first == 0 then call.ts else c.first, last := call.ts), call.ip, call.ts);
    d.(entropy := if d.entropy == 0.0 then call.ent else d.entropy * 0.8 + call.ent * 0.2)
  }

  // What a touched cluster reports.
  function Verdict(c: Cluster, now: int): Result {
    if c.alerted || |c.ips| < MIN_CLUSTER_IPS then Clean
    else if Active(c.times, now) >= MIN_CLUSTER_IPS then SyncApt
    else if c.entropy >= 4.5 then Entropy
    else Cluster5
  }

  predicate Wf(cs: seq<Cluster>) { forall i | 0 <= i < |cs| :: WellFormed(cs[i]) }

  function Outcome(g: Graph, call: Call): Result
    requires Wf(g.clusters)
  {
    var cs := Admit(g.clusters, call.hash);
    var i := Scan(cs, call.hash);
    if i < |cs| then Verdict(Touch(cs[i], call), call.ts) else Clean
  }

  function Step(g: Graph, call: Call): Graph
    requires Wf(g.clusters)
  {
    var cs := Admit(g.clusters, call.hash);
    var i := Scan(cs, call.hash);
    if i == |cs| then g
    else
      var c := Touch(cs[i], call);
      var v := Verdict(c, call.ts);
      Graph(cs[i := if v == Clean then c else c.(alerted := true, sync := c.sync || v == SyncApt)],
            g.total + |cs| - |g.clusters|, g.detections + if v == Clean then 0 else 1)
  }

  // ---------- The bucket table and the engine in place ----------

  function Bucket(hash: nat): (b: nat)
    ensures b < BUCKETS
  {
    hash % BUCKETS
  }

  // Every bucket is empty or names a cluster that belongs there.
  predicate Indexed(table: seq<int>, cs: seq<Cluster>) {
    |table| == BUCKETS && forall b | 0 <= b < BUCKETS :: IndexedAt(table[b], cs, b)
  }

  predicate IndexedAt(e: int, cs: seq<Cluster>, b: int) {
    e == -1 || (0 <= e < |cs| && Bucket(cs[e].hash) == b)
  }

  lemma ScanUnique(cs: seq<Cluster>, i: nat)
    requires UniqueHashes(cs) && i < |cs|
    ensures Scan(cs, cs[i].hash) == i
  {
  }

  lemma AdmitKeeps(cs: seq<Cluster>, hash: nat)
    requires UniqueHashes(cs) && Wf(cs)
    ensures UniqueHashes(Admit(cs, hash)) && Wf(Admit(cs, hash))
    ensures Scan(Admit(cs, hash), hash) == if Scan(cs, hash) < |cs| then Scan(cs, hash) else |cs|
  {
    var ds := Admit(cs, hash);
    if |ds| > |cs| {
      assert forall k | 0 <= k < |cs| :: ds[k] == cs[k];
      ScanUnique(ds, |cs|);
    }
  }

  lemma IndexedGrows(table: seq<int>, cs: seq<Cluster>, c: Cluster, b: int, i: int)
    requires Indexed(table, cs) && 0 <= b < BUCKETS && IndexedAt(i, cs + [c], b)
    ensures Indexed(table[b := i], cs + [c])
  {
    var t, ds := table[b := i], cs + [c];
    forall k | 0 <= k < BUCKETS
      ensures IndexedAt(t[k], ds, k)
    {
      assert IndexedAt(table[k], cs, k);
    }
  }

  lemma IndexedSet(table: seq<int>, cs: seq<Cluster>, b: int, i: int)
    requires Indexed(table, cs) && 0 <= b < BUCKETS && IndexedAt(i, cs, b)
    ensures Indexed(table[b := i], cs)
  {
  }

  lemma IndexedReplace(table: seq<int>, cs: seq<Cluster>, i: nat, c: Cluster)
    requires Indexed(table, cs) && i < |cs| && c.hash == cs[i].hash
    ensures Indexed(table, cs[i := c])
  {
    var ds := cs[i := c];
    forall k | 0 <= k < BUCKETS
      ensures IndexedAt(table[k], ds, k)
    {
      assert IndexedAt(table[k], cs, k);
    }
  }

  class Engine {
    var clusters: seq<Cluster>
    var table: seq<int>
    var total: nat
    var detections: nat

    ghost predicate Valid()
      reads this
    {
      |clusters| <= MAX_CLUSTERS && UniqueHashes(clusters) && Wf(clusters) && Indexed(table, clusters)
    }

    function View(): Graph
      reads this
    {
      Graph(clusters, total, detections)
    }

    // apt_graph_init
    constructor ()
      ensures Valid() && View() == Graph([], 0, 0)
    {
      clusters, total, detections := [], 0, 0;
      table := seq(BUCKETS, _ => -1);
    }

    // find_or_create_cluster
    method FindOrCreate(hash: nat) returns (idx: int)
      requires Valid()
      modifies this
      ensures Valid() && clusters == Admit(old(clusters), hash) && detections == old(detections)
      ensures total == old(total) + |clusters| - |old(clusters)|
      ensures idx == if Scan(clusters, hash) < |clusters| then Scan(clusters, hash) else -1
    {
      hide Indexed, Scan, Wf, UniqueHashes, Bucket;
      AdmitKeeps(clusters, hash);
      var bucket := Bucket(hash);
      IndexedLength(table, clusters);
      idx := table[bucket];
      if 0 <= idx < |clusters| && clusters[idx].hash == hash {
        ScanUnique(clusters, idx);
        return;
      }
      var i := 0;
      while i < |clusters|
        invariant i <= |clusters| && clusters == old(clusters) && View() == old(View()) && table == old(table)
        invariant forall k | 0 <= k < i :: clusters[k].hash != hash
      {
        if clusters[i].hash == hash {
          ScanUnique(clusters, i);
          IndexedSet(table, clusters, bucket, i);
          table := table[bucket := i];
          return i;
        }
        i := i + 1;
      }
      ScanMisses(clusters, hash);
      if |clusters| >= MAX_CLUSTERS {
        return -1;
      }
      IndexedGrows(table, clusters, Fresh(hash), bucket, |clusters|);
      table := table[bucket := |clusters|];
      clusters := clusters + [Fresh(hash)];
      total := total + 1;
      idx := |clusters| - 1;
    }

    // cluster_add_ip
    method AddIpTo(idx: nat, ip: Ip, ts: int)
      requires idx < |clusters| && WellFormed(clusters[idx])
      modifies `clusters
      ensures clusters == old(clusters)[idx := AddIp(old(clusters[idx]), ip, ts)]
    {
      var c := clusters[idx];
      var i := 0;
      while i < |c.ips|
        invariant i <= |c.ips| && (forall k | 0 <= k < i :: c.ips[k] != ip) && clusters == old(clusters)
      {
        if c.ips[i] == ip {
          clusters := clusters[idx := c.(times := c.times[i := ts])];
          return;
        }
        i := i + 1;
      }
      if |c.ips| >= MAX_IPS {
        return;
      }
      clusters := clusters[idx := c.(ips := c.ips + [ip], times := c.times + [ts])];
    }

    method TouchAt(idx: nat, call: Call)
      requires idx < |clusters| && WellFormed(clusters[idx])
      modifies `clusters
      ensures clusters == old(clusters)[idx := Touch(old(clusters[idx]), call)]
    {
      hide AddIp;
      var c := clusters[idx];
      clusters := clusters[idx := c.(first := if c.first == 0 then call.ts else c.first, last := call.ts)];
      AddIpTo(idx, call.ip, call.ts);
      var d := clusters[idx];
      var entropy := if d.entropy == 0.0 then call.ent else d.entropy * 0.8 + call.ent * 0.2;
      clusters := clusters[idx := d.(entropy := entropy)];
    }

    // apt_graph_submit; `known` tells whether the address could be read.
    method Submit(known: bool, call: Call) returns (r: Result)
      requires Valid()
      modifies this
      ensures Valid()
      ensures !known ==> r == Clean && View() == old(View())
      ensures known ==> r == Outcome(old(View()), call) && View() == Step(old(View()), call)
    {
      hide Indexed, Scan, UniqueHashes, Touch, Active, Wf;
      r := Clean;
      if !known {
        return;
      }
      AdmitKeeps(clusters, call.hash);
      var idx := FindOrCreate(call.hash);
      if idx < 0 {
        return;
      }
      ghost var cs := clusters;
      WfAt(cs, idx);
      TouchKeeps(clusters[idx], call);
      TouchAt(idx, call);
      var d := clusters[idx];
      if !d.alerted && |d.ips| >= MIN_CLUSTER_IPS {
        var sync := CheckSync(d, call.ts);
        d := d.(alerted := true, sync := d.sync || sync);
        r := if sync then SyncApt else if d.entropy >= 4.5 then Entropy else Cluster5;
        detections := detections + 1;
      }
      clusters := clusters[idx := d];
      assert clusters == cs[idx := d];
      ReplaceKeeps(table, cs, idx, d);
    }

    // apt_graph_purge_old
    method Purge(olderThan: int)
      requires Valid()
      modifies `clusters, `table
      ensures Valid() && clusters == Purged(old(clusters), 0, olderThan)
      ensures multiset(clusters) == multiset(Recent(old(clusters), olderThan))
    {
      hide Indexed, Recent, UniqueHashes, Wf;
      PurgedIsRecent(clusters, 0, olderThan);
      var i := 0;
      while i < |clusters|
        invariant i <= |clusters| && Valid()
        invariant Purged(clusters, i, olderThan) == Purged(old(clusters), 0, olderThan)
        decreases |clusters| - i
      {
        if clusters[i].last < olderThan {
          PurgeStep(clusters, i, olderThan);
          clusters := clusters[i := clusters[|clusters| - 1]][..|clusters| - 1];
          Rebuild();
        } else {
          i := i + 1;
        }
      }
    }

    method Rebuild()
      requires |clusters| <= MAX_CLUSTERS
      modifies `table
      ensures Indexed(table, clusters)
    {
      hide Bucket;
      table := seq(BUCKETS, _ => -1);
      var j := 0;
      while j < |clusters|
        invariant j <= |clusters| && Indexed(table, clusters)
      {
        IndexedSet(table, clusters, Bucket(clusters[j].hash), j);
        table := table[Bucket(clusters[j].hash) := j];
        j := j + 1;
      }
    }
  }

  // The clusters after the purge loop from i on: an old cluster is overwritten by the last one.
  function Purged(cs: seq<Cluster>, i: nat, cutoff: int): seq<Cluster>
    requires i <= |cs|
    decreases |cs| - i
  {
    if i == |cs| then cs
    else if cs[i].last < cutoff then Purged(cs[i := cs[|cs| - 1]][..|cs| - 1], i, cutoff)
    else Purged(cs, i + 1, cutoff)
  }

  // It keeps exactly the recent ones.
  lemma {:induction false} PurgedIsRecent(cs: seq<Cluster>, i: nat, cutoff: int)
    requires i <= |cs| && UniqueHashes(cs) && Wf(cs) && forall k | 0 <= k < i :: cs[k].last >= cutoff
    ensures var ds := Purged(cs, i, cutoff);
      |ds| <= |cs| && UniqueHashes(ds) && Wf(ds) && multiset(ds) == multiset(Recent(cs, cutoff))
    decreases |cs| - i
  {
    hide Recent, UniqueHashes, Wf;
    if i == |cs| {
      AllRecent(cs, cutoff);
    } else if cs[i].last < cutoff {
      PurgeStep(cs, i, cutoff);
      PurgedIsRecent(cs[i := cs[|cs| - 1]][..|cs| - 1], i, cutoff);
    } else {
      PurgedIsRecent(cs, i + 1, cutoff);
    }
  }

  // The clusters seen at or after the cutoff.
  function Recent(cs: seq<Cluster>, cutoff: int): seq<Cluster> {
    if cs == [] then []
    else
      var n := |cs| - 1;
      Recent(cs[..n], cutoff) + if cs[n].last >= cutoff then [cs[n]] else []
  }

  lemma {:induction false} AllRecent(cs: seq<Cluster>, cutoff: int)
    requires forall k | 0 <= k < |cs| :: cs[k].last >= cutoff
    ensures Recent(cs, cutoff) == cs
  {
    if cs != [] {
      var n := |cs| - 1;
      AllRecent(cs[..n], cutoff);
      assert cs == cs[..n] + [cs[n]];
    }
  }

  lemma {:induction false} RecentConcat(a: seq<Cluster>, b: seq<Cluster>, cutoff: int)
    ensures Recent(a + b, cutoff) == Recent(a, cutoff) + Recent(b, cutoff)
    decreases |b|
  {
    if b == [] {
      assert a + b == a;
    } else {
      var n := |b| - 1;
      assert (a + b)[..|a + b| - 1] == a + b[..n];
      RecentConcat(a, b[..n], cutoff);
    }
  }

  // An old cluster is overwritten by the last one: the recent ones stay the same.
  lemma PurgeStep(cs: seq<Cluster>, i: nat, cutoff: int)
    requires i < |cs| && cs[i].last < cutoff && UniqueHashes(cs) && Wf(cs)
    ensures var ds := cs[i := cs[|cs| - 1]][..|cs| - 1];
      && multiset(Recent(ds, cutoff)) == multiset(Recent(cs, cutoff)) && UniqueHashes(ds) && Wf(ds)
  {
    hide Recent;
    var n := |cs| - 1;
    var ds := cs[i := cs[n]][..n];
    if i == n {
      assert cs == cs[..i] + [cs[i]];
      assert ds == cs[..i];
      RecentConcat(cs[..i], [cs[i]], cutoff);
      OldDropped(cs[i], cutoff);
    } else {
      assert cs == cs[..i] + ([cs[i]] + (cs[i + 1..n] + [cs[n]]));
      assert ds == cs[..i] + ([cs[n]] + cs[i + 1..n]);
      RecentMoves(cs[..i], cs[i], cs[i + 1..n], [cs[n]], cutoff);
    }
  }

  lemma OldDropped(c: Cluster, cutoff: int)
    requires c.last < cutoff
    ensures Recent([c], cutoff) == []
  {
  }

  lemma RecentMoves(a: seq<Cluster>, c: Cluster, mid: seq<Cluster>, z: seq<Cluster>, cutoff: int)
    requires c.last < cutoff
    ensures multiset(Recent(a + ([c] + (mid + z)), cutoff)) == multiset(Recent(a + (z + mid), cutoff))
  {
    hide Recent;
    OldDropped(c, cutoff);
    RecentConcat(a, [c] + (mid + z), cutoff);
    RecentConcat([c], mid + z, cutoff);
    RecentConcat(mid, z, cutoff);
    RecentConcat(a, z + mid, cutoff);
    RecentConcat(z, mid, cutoff);
    assert [] + Recent(mid + z, cutoff) == Recent(mid + z, cutoff);
  }

  // check_sync_beaconing
  method CheckSync(c: Cluster, now: int) returns (r: bool)
    ensures r <==> |c.ips| >= MIN_CLUSTER_IPS && Active(c.times, now) >= MIN_CLUSTER_IPS
  {
    if |c.ips| < MIN_CLUSTER_IPS {
      return false;
    }
    var active, i := 0, 0;
    while i < |c.times|
      invariant i <= |c.times| && active == Active(c.times[..i], now)
    {
      assert c.times[..i + 1][..i] == c.times[..i];
      if c.times[i] > 0 && now - c.times[i] <= SYNC_WINDOW {
        active := active + 1;
      }
      i := i + 1;
    }
    assert c.times[..i] == c.times;
    r := active >= MIN_CLUSTER_IPS;
  }

  lemma WfAt(cs: seq<Cluster>, i: int)
    requires Wf(cs) && 0 <= i < |cs|
    ensures WellFormed(cs[i])
  {
  }

  lemma TouchKeeps(c: Cluster, call: Call)
    requires WellFormed(c)
    ensures WellFormed(Touch(c, call)) && Touch(c, call).hash == c.hash
  {
  }

  lemma ReplaceKeeps(table: seq<int>, cs: seq<Cluster>, i: nat, c: Cluster)
    requires Indexed(table, cs) && UniqueHashes(cs) && Wf(cs) && i < |cs| && c.hash == cs[i].hash && WellFormed(c)
    ensures Indexed(table, cs[i := c]) && UniqueHashes(cs[i := c]) && Wf(cs[i := c])
  {
    IndexedReplace(table, cs, i, c);
  }

  lemma IndexedLength(table: seq<int>, cs: seq<Cluster>)
    requires Indexed(table, cs)
    ensures |table| == BUCKETS
  {
  }

  lemma ScanMisses(cs: seq<Cluster>, hash: nat)
    requires forall k | 0 <= k < |cs| :: cs[k].hash != hash
    ensures Scan(cs, hash) == |cs|
  {
  }

  // ---------- Whole runs without purge ----------

  function AddNew<T(==)>(s: seq<T>, x: T, cap: nat): seq<T> { if x in s || |s| >= cap then s else s + [x] }

  // The hashes that got a cluster, in order of arrival.
  function Hashes(h: seq<Call>): (r: seq<nat>)
    ensures |r| <= MAX_CLUSTERS
  {
    if h == [] then [] else AddNew(Hashes(h[..|h| - 1]), h[|h| - 1].hash, MAX_CLUSTERS)
  }

  // The addresses that sent a payload.
  function Senders(h: seq<Call>, x: nat): set<Ip> { set c | c in h && c.hash == x :: c.ip }

  // The first 32 of them, in order of arrival.
  function Members(h: seq<Call>, x: nat): (r: seq<Ip>)
    ensures |r| <= MAX_IPS
  {
    if h == [] then []
    else
      var n := |h| - 1;
      if h[n].hash == x then AddNew(Members(h[..n], x), h[n].ip, MAX_IPS) else Members(h[..n], x)
  }

  // When an address last sent a payload.
  function LastTime(h: seq<Call>, x: nat, ip: Ip): int {
    if h == [] then 0
    else
      var n := |h| - 1;
      if h[n].hash == x && h[n].ip == ip then h[n].ts else LastTime(h[..n], x, ip)
  }

  // The hashes that have been reported.
  function Reported(h: seq<Call>): set<nat> { set x | x in Hashes(h) && |Members(h, x)| >= MIN_CLUSTER_IPS }

  ghost predicate Mirrors(c: Cluster, h: seq<Call>) {
    && c.ips == Members(h, c.hash) && |c.times| == |c.ips|
    && (forall k | 0 <= k < |c.ips| :: c.times[k] == LastTime(h, c.hash, c.ips[k]))
    && (c.alerted <==> |c.ips| >= MIN_CLUSTER_IPS)
  }

  // The engine's state after the calls of h.
  ghost predicate Tracks(g: Graph, h: seq<Call>) {
    && |g.clusters| == |Hashes(h)| == g.total && UniqueHashes(g.clusters)
    && (forall i | 0 <= i < |g.clusters| :: g.clusters[i].hash == Hashes(h)[i] && Mirrors(g.clusters[i], h))
    && g.detections == |Reported(h)|
  }

  lemma TracksWf(g: Graph, h: seq<Call>)
    requires Tracks(g, h)
    ensures Wf(g.clusters) && |g.clusters| <= MAX_CLUSTERS
  {
  }

  // One cluster, one call.
  lemma TouchMirrors(c: Cluster, h: seq<Call>, call: Call)
    requires Mirrors(c, h) && call.hash == c.hash && WellFormed(c)
    ensures var d := Touch(c, call); var h' := h + [call];
      d.ips == Members(h', c.hash) && |d.times| == |d.ips|
      && (forall k | 0 <= k < |d.ips| :: d.times[k] == LastTime(h', c.hash, d.ips[k]))
  {
    var h' := h + [call];
    assert h'[..|h|] == h;
    var d, i := Touch(c, call), Position(c.ips, call.ip);
    MembersUnique(h, c.hash);
    if i < |c.ips| {
      assert c.ips[i] in c.ips;
    }
  }

  lemma {:induction false} MembersUnique(h: seq<Call>, x: nat)
    ensures forall i, j | 0 <= i < j < |Members(h, x)| :: Members(h, x)[i] != Members(h, x)[j]
  {
    if h != [] {
      MembersUnique(h[..|h| - 1], x);
    }
  }

  // A cluster that the call does not concern.
  lemma OtherMirrors(c: Cluster, h: seq<Call>, call: Call)
    requires Mirrors(c, h) && call.hash != c.hash
    ensures Mirrors(c, h + [call])
  {
    assert (h + [call])[..|h|] == h;
  }

  // Until the table of clusters is full, every payload has its cluster.
  lemma {:induction false} NeverSeen(h: seq<Call>, x: nat)
    requires x !in Hashes(h) && |Hashes(h)| < MAX_CLUSTERS
    ensures Members(h, x) == [] && forall ip :: LastTime(h, x, ip) == 0
  {
    if h != [] {
      NeverSeen(h[..|h| - 1], x);
    }
  }

  // The call that brings the fifth address of a payload.
  predicate Fifth(h: seq<Call>, call: Call) {
    && call.hash in Hashes(h + [call])
    && |Members(h, call.hash)| == MIN_CLUSTER_IPS - 1 && call.ip !in Members(h, call.hash)
  }

  lemma HashesStep(h: seq<Call>, call: Call)
    ensures Hashes(h + [call]) == AddNew(Hashes(h), call.hash, MAX_CLUSTERS)
    ensures Members(h + [call], call.hash) == AddNew(Members(h, call.hash), call.ip, MAX_IPS)
    ensures forall y | y != call.hash :: Members(h + [call], y) == Members(h, y)
  {
    assert (h + [call])[..|h|] == h;
  }

  lemma ReportedStep(h: seq<Call>, call: Call)
    ensures |Reported(h + [call])| == |Reported(h)| + if Fifth(h, call) then 1 else 0
  {
    hide Hashes, Members;
    HashesStep(h, call);
    var x := call.hash;
    if x in Hashes(h + [call]) && x !in Hashes(h) {
      NeverSeen(h, x);
    }
    if Fifth(h, call) {
      assert Reported(h + [call]) == Reported(h) + {x};
      assert x !in Reported(h);
    } else {
      assert Reported(h + [call]) == Reported(h);
    }
  }

  // After admission every cluster still mirrors the calls before this one.
  lemma AdmitMirrors(g: Graph, h: seq<Call>, call: Call)
    requires Tracks(g, h)
    ensures var cs := Admit(g.clusters, call.hash); var hs := Hashes(h + [call]);
      && |cs| == |hs| && UniqueHashes(cs) && (call.hash in hs <==> Scan(cs, call.hash) < |cs|)
      && forall i | 0 <= i < |cs| :: cs[i].hash == hs[i] && Mirrors(cs[i], h)
  {
    hide Hashes, Members, LastTime;
    var cs, x := g.clusters, call.hash;
    HashesStep(h, call);
    TracksWf(g, h);
    AdmitKeeps(cs, x);
    if x in Hashes(h) {
      var k :| 0 <= k < |cs| && Hashes(h)[k] == x;
      ScanUnique(cs, k);
    } else if |cs| < MAX_CLUSTERS {
      NeverSeen(h, x);
      assert Mirrors(Fresh(x), h);
    }
  }

  lemma TouchedCluster(c: Cluster, h: seq<Call>, call: Call)
    requires Mirrors(c, h) && call.hash == c.hash && WellFormed(c) && call.hash in Hashes(h + [call])
    ensures var d := Touch(c, call); var v := Verdict(d, call.ts);
      && (v != Clean <==> Fifth(h, call))
      && Mirrors(if v == Clean then d else d.(alerted := true, sync := d.sync || v == SyncApt), h + [call])
  {
    hide Hashes, Members, LastTime, Active;
    HashesStep(h, call);
    TouchMirrors(c, h, call);
  }

  // The whole run: alerts come with the fifth address of a payload and with nothing else.
  lemma StepTracks(g: Graph, h: seq<Call>, call: Call)
    requires Tracks(g, h)
    ensures Wf(g.clusters) && Tracks(Step(g, call), h + [call])
    ensures Outcome(g, call) != Clean <==> Fifth(h, call)
  {
    hide Hashes, Members, Reported, Mirrors, Touch, Verdict, Fifth;
    TracksWf(g, h);
    AdmitMirrors(g, h, call);
    ReportedStep(h, call);
    var cs := Admit(g.clusters, call.hash);
    var i := Scan(cs, call.hash);
    AdmitKeeps(g.clusters, call.hash);
    forall k | 0 <= k < |cs| && k != i
      ensures Mirrors(cs[k], h + [call])
    {
      OtherHash(cs, k, call.hash);
      OtherMirrors(cs[k], h, call);
    }
    if i < |cs| {
      TouchedCluster(cs[i], h, call);
      TouchKeeps(cs[i], call);
    } else {
      NotFifth(h, call);
    }
  }

  lemma OtherHash(cs: seq<Cluster>, k: nat, x: nat)
    requires UniqueHashes(cs) && k < |cs| && k != Scan(cs, x)
    ensures cs[k].hash != x
  {
  }

  lemma NotFifth(h: seq<Call>, call: Call)
    requires call.hash !in Hashes(h + [call])
    ensures !Fifth(h, call)
  {
  }

  // The members stand for the senders, up to 32 of them.
  ghost predicate Stand(members: seq<Ip>, senders: set<Ip>) {
    && |members| == (if |senders| < MAX_IPS then |senders| else MAX_IPS)
    && (forall ip | ip in members :: ip in senders)
    && (|members| < MAX_IPS ==> forall ip | ip in senders :: ip in members)
  }

  lemma StandGrows(members: seq<Ip>, senders: set<Ip>, ip: Ip)
    requires Stand(members, senders)
    ensures Stand(AddNew(members, ip, MAX_IPS), senders + {ip})
  {
    OneMore(senders, ip);
  }

  lemma {:induction false} MembersAreSenders(h: seq<Call>, x: nat)
    ensures Stand(Members(h, x), Senders(h, x))
  {
    hide Stand;
    if h == [] {
      assert Senders(h, x) == {};
      NobodyStands();
    } else {
      var n := |h| - 1;
      MembersAreSenders(h[..n], x);
      SendersStep(h, x);
      if h[n].hash == x {
        StandGrows(Members(h[..n], x), Senders(h[..n], x), h[n].ip);
      } else {
        assert Senders(h[..n], x) + {} == Senders(h[..n], x);
      }
    }
  }

  lemma NobodyStands()
    ensures Stand([], {})
  {
  }

  lemma SendersStep(h: seq<Call>, x: nat)
    requires h != []
    ensures var n := |h| - 1; Senders(h, x) == Senders(h[..n], x) + if h[n].hash == x then {h[n].ip} else {}
  {
    var n := |h| - 1;
    assert h == h[..n] + [h[n]];
  }

  lemma OneMore(s: set<Ip>, x: Ip)
    ensures |s + {x}| == if x in s then |s| else |s| + 1
  {
    if x in s {
      assert s + {x} == s;
    }
  }

  // So the fifth member is the fifth distinct sender.
  lemma FifthIsFifthSender(h: seq<Call>, call: Call)
    ensures Fifth(h, call) <==>
      && call.hash in Hashes(h + [call])
      && |Senders(h, call.hash)| == MIN_CLUSTER_IPS - 1 && call.ip !in Senders(h, call.hash)
  {
    hide Hashes, Members, Senders;
    MembersAreSenders(h, call.hash);
  }

  // With at most 512 different payloads every payload has a cluster.
  lemma {:induction false} AllAdmitted(h: seq<Call>, few: set<nat>, x: nat)
    requires |few| <= MAX_CLUSTERS && (forall c | c in h :: c.hash in few) && exists c :: c in h && c.hash == x
    ensures x in Hashes(h)
  {
    var n := |h| - 1;
    assert h == h[..n] + [h[n]];
    if exists c :: c in h[..n] && c.hash == x {
      AllAdmitted(h[..n], few, x);
    } else {
      HashesBelow(h[..n], few, x);
    }
  }

  lemma {:induction false} HashesBelow(h: seq<Call>, few: set<nat>, x: nat)
    requires (forall c | c in h :: c.hash in few) && x in few && forall c | c in h :: c.hash != x
    ensures |Hashes(h)| < |few| && x !in Hashes(h)
  {
    HashesIn(h, few - {x});
    HashesDistinct(h);
    SeqInSet(Hashes(h), few - {x});
  }

  lemma {:induction false} HashesIn(h: seq<Call>, few: set<nat>)
    requires forall c | c in h :: c.hash in few
    ensures forall k | 0 <= k < |Hashes(h)| :: Hashes(h)[k] in few
  {
    if h != [] {
      HashesIn(h[..|h| - 1], few);
    }
  }

  lemma {:induction false} HashesDistinct(h: seq<Call>)
    ensures forall i, j | 0 <= i < j < |Hashes(h)| :: Hashes(h)[i] != Hashes(h)[j]
  {
    if h != [] {
      HashesDistinct(h[..|h| - 1]);
    }
  }

  lemma {:induction false} SeqInSet(s: seq<nat>, a: set<nat>)
    requires (forall i, j | 0 <= i < j < |s| :: s[i] != s[j]) && forall k | 0 <= k < |s| :: s[k] in a
    ensures |s| <= |a|
  {
    if s != [] {
      SeqInSet(s[1..], a - {s[0]});
    }
  }

  // ---------- Runs ----------

  ghost function Run(h: seq<Call>): (g: Graph)
    ensures Tracks(g, h) && Wf(g.clusters)
  {
    if h == [] then EmptyTracks(); Graph([], 0, 0)
    else
      var n := |h| - 1;
      assert h == h[..n] + [h[n]];
      StepTracks(Run(h[..n]), h[..n], h[n]);
      var g := Step(Run(h[..n]), h[n]);
      TracksWf(g, h);
      g
  }

  lemma EmptyTracks()
    ensures Tracks(Graph([], 0, 0), [])
  {
    assert Reported([]) == {};
  }

  // How many calls of the run reported the payload.
  ghost function Alerts(h: seq<Call>, x: nat): nat {
    if h == [] then 0
    else
      var n := |h| - 1;
      Alerts(h[..n], x) + if h[n].hash == x && Outcome(Run(h[..n]), h[n]) != Clean then 1 else 0
  }

  // Each payload that has reached five senders was reported exactly once, every other never.
  lemma {:induction false} AlertsOnce(h: seq<Call>, x: nat)
    ensures Alerts(h, x) == if x in Hashes(h) && |Senders(h, x)| >= MIN_CLUSTER_IPS then 1 else 0
  {
    hide Hashes, Members, Senders, Run, Outcome;
    MembersAreSenders(h, x);
    if h == [] {
      NothingSent(x);
    } else {
      var n := |h| - 1;
      assert h == h[..n] + [h[n]];
      AlertsOnce(h[..n], x);
      MembersAreSenders(h[..n], x);
      StepTracks(Run(h[..n]), h[..n], h[n]);
      HashesStep(h[..n], h[n]);
      if x in Hashes(h) && x !in Hashes(h[..n]) {
        NeverSeen(h[..n], x);
      }
    }
  }

  lemma NothingSent(x: nat)
    ensures Senders([], x) == {} && Hashes([]) == []
  {
  }

  lemma DetectionsCount(h: seq<Call>)
    ensures Run(h).detections == |set x | x in Hashes(h) && |Senders(h, x)| >= MIN_CLUSTER_IPS|
    ensures Run(h).total == |Hashes(h)|
  {
    hide Hashes, Members, Senders, Run;
    forall x
      ensures |Members(h, x)| >= MIN_CLUSTER_IPS <==> |Senders(h, x)| >= MIN_CLUSTER_IPS
    {
      MembersAreSenders(h, x);
    }
    assert Reported(h) == set x | x in Hashes(h) && |Senders(h, x)| >= MIN_CLUSTER_IPS;
  }

  // ---------- When the alert says the senders act together ----------

  predicate InWindow(t: int, now: int) { t > 0 && now - t <= SYNC_WINDOW }

  lemma {:induction false} ActiveAll(times: seq<int>, now: int)
    ensures Active(times, now) <= |times|
    ensures Active(times, now) == |times| <==> forall k | 0 <= k < |times| :: InWindow(times[k], now)
  {
    if times != [] {
      var n := |times| - 1;
      ActiveAll(times[..n], now);
      assert InWindow(times[n], now) == (times[n] > 0 && now - times[n] <= SYNC_WINDOW);
      assert forall k | 0 <= k < n :: times[..n][k] == times[k];
    }
  }

  // The fifth address finds a synchronised cluster if and only if every sender's last request lies
  // in the window.
  lemma SyncVerdict(h: seq<Call>, call: Call)
    requires Fifth(h, call)
    ensures Outcome(Run(h), call) == SyncApt <==>
      forall ip | ip in Senders(h + [call], call.hash) :: InWindow(LastTime(h + [call], call.hash, ip), call.ts)
  {
    hide Hashes, Members, LastTime, Run, Scan, Active, Touch;
    var g, x, h' := Run(h), call.hash, h + [call];
    AdmitMirrors(g, h, call);
    TracksWf(g, h);
    AdmitKeeps(g.clusters, x);
    var cs := Admit(g.clusters, x);
    var c := cs[Scan(cs, x)];
    var d := Touch(c, call);
    TouchMirrors(c, h, call);
    StepTracks(g, h, call);
    HashesStep(h, call);
    MembersAreSenders(h', x);
    ActiveAll(d.times, call.ts);
    assert |d.ips| == MIN_CLUSTER_IPS;
    forall ip | ip in Senders(h', x)
      ensures ip in d.ips
    {
    }
    forall k | 0 <= k < |d.ips|
      ensures d.ips[k] in Senders(h', x) && d.times[k] == LastTime(h', x, d.ips[k])
    {
      assert d.ips[k] in Members(h', x);
    }
  }
}
