/** db.c: the alert ring between any number of producers and one writer, one atomic operation at
    a time. The counters are 32 bits wide and wrap: head and tail are kept as unbounded numbers
    here and every comparison the code makes is made modulo 2^32. */
module AlertRing {
  import opened Wrappers

  const SIZE := 4096

  const WORD := 0x1_0000_0000

  // Where a producer stands inside db_enqueue_alert.
  datatype Producer =
    | Idle
    | Entered                      // past the guard
    | HasTail(t: nat)              // tail loaded
    | HasBoth(t: nat, h: nat)      // head loaded too
    | Committed(t: nat, h: nat)    // room seen, about to take a slot
    | Filling(index: nat)          // slot taken, being filled

  // Where the writer stands.
  datatype Writer = Ready | HasHead(h: nat) | Draining(h: nat, t: nat)

  // One taken slot: who took it and the tail and head it had loaded.
  datatype Entry = Entry(owner: nat, t: nat, h: nat)

  // An alert is told by the number of its entry. A slot holds the alert last filled in, and a row of the
  // database the alert it was made from.
  datatype Ring = Ring(
    head: nat, tail: nat, dropped: nat, producers: seq<Producer>, writer: Writer,
    started: nat, entries: seq<Entry>, slots: seq<Option<nat>>, rows: seq<Option<nat>>)

  datatype Action =
    | Enter(i: nat) | LoadTail(i: nat) | LoadHead(i: nat) | SeeRoom(i: nat) | Drop(i: nat)
    | TakeSlot(i: nat) | Fill(i: nat)
    | WriterLoadHead | WriterLoadTail | WriteRow | EndBatch

  // The 32-bit fullness test on two loaded values.
  predicate LooksFull(t: nat, h: nat) { (t - h) % WORD >= SIZE }

  predicate Enabled(r: Ring, a: Action) {
    match a
    case Enter(i) => i < |r.producers| && r.producers[i].Idle?
    case LoadTail(i) => i < |r.producers| && r.producers[i].Entered?
    case LoadHead(i) => i < |r.producers| && r.producers[i].HasTail?
    case SeeRoom(i) => i < |r.producers| && r.producers[i].HasBoth? && !LooksFull(r.producers[i].t, r.producers[i].h)
    case Drop(i) => i < |r.producers| && r.producers[i].HasBoth? && LooksFull(r.producers[i].t, r.producers[i].h)
    case TakeSlot(i) => i < |r.producers| && r.producers[i].Committed?
    case Fill(i) => i < |r.producers| && r.producers[i].Filling?
    case WriterLoadHead => r.writer.Ready?
    case WriterLoadTail => r.writer.HasHead?
    case WriteRow => r.writer.Draining? && (r.writer.t - r.writer.h) % WORD != 0
    case EndBatch => r.writer.Draining?
  }

  function SetProducer(r: Ring, i: nat, p: Producer): Ring
    requires i < |r.producers|
  {
    r.(producers := r.producers[i := p])
  }

  // The slot of an entry, written and read.
  function Put(slots: seq<Option<nat>>, index: nat): seq<Option<nat>> {
    if index % SIZE < |slots| then slots[index % SIZE := Some(index)] else slots
  }

  function Held(slots: seq<Option<nat>>, index: nat): Option<nat> {
    if index % SIZE < |slots| then slots[index % SIZE] else None
  }

  // One atomic step.
  function Apply(r: Ring, a: Action): Ring
    requires Enabled(r, a)
  {
    match a
    case Enter(i) => SetProducer(r, i, Entered).(started := r.started + 1)
    case LoadTail(i) => SetProducer(r, i, HasTail(r.tail))
    case LoadHead(i) => SetProducer(r, i, HasBoth(r.producers[i].t, r.head))
    case SeeRoom(i) => SetProducer(r, i, Committed(r.producers[i].t, r.producers[i].h))
    case Drop(i) => SetProducer(r, i, Idle).(dropped := r.dropped + 1)
    case TakeSlot(i) =>
      SetProducer(r, i, Filling(r.tail)).(tail := r.tail + 1,
        entries := r.entries + [Entry(i, r.producers[i].t, r.producers[i].h)])
    case Fill(i) => SetProducer(r, i, Idle).(slots := Put(r.slots, r.producers[i].index))
    case WriterLoadHead => r.(writer := HasHead(r.head))
    case WriterLoadTail => r.(writer := Draining(r.writer.h, r.tail))
    case WriteRow =>
      r.(writer := Draining(r.writer.h + 1, r.writer.t), head := r.writer.h + 1,
        rows := r.rows + [Held(r.slots, r.writer.h)])
    case EndBatch => r.(writer := Ready)
  }

  function Initial(n: nat): Ring {
    Ring(0, 0, 0, seq(n, i => Idle), Ready, 0, [], seq(SIZE, i => None), [])
  }

  // ---------- The invariant ----------

  // A call still on its way to being accepted or dropped.
  predicate InFlight(p: Producer) { p.Entered? || p.HasTail? || p.HasBoth? || p.Committed? }

  function Flying(ps: seq<Producer>): nat {
    if |ps| == 0 then 0 else Flying(ps[..|ps| - 1]) + (if InFlight(ps[|ps| - 1]) then 1 else 0)
  }

  // What a producer has loaded is not newer than the counters, and it loaded tail after the last
  // slot it took itself.
  ghost predicate ProducerOk(r: Ring, i: nat)
    requires i < |r.producers|
  {
    match r.producers[i]
    case HasTail(t) => t <= r.tail && OwnBefore(r.entries, i, t)
    case HasBoth(t, h) => t <= r.tail && h <= r.head && OwnBefore(r.entries, i, t) && t - h < WORD
    case Committed(t, h) => t <= r.tail && h <= r.head && OwnBefore(r.entries, i, t) && t < h + SIZE
    case Filling(index) => index < r.tail
    case _ => true
  }

  ghost predicate OwnBefore(entries: seq<Entry>, i: nat, t: nat) {
    forall x | 0 <= x < |entries| && entries[x].owner == i :: x < t
  }

  ghost predicate EntryOk(r: Ring, x: nat)
    requires x < |r.entries|
  {
    var e := r.entries[x];
    && e.owner < |r.producers| && e.t < e.h + SIZE && e.h <= r.head
    && OwnBefore(r.entries[..x], e.owner, e.t)
  }

  predicate WriterOk(r: Ring) {
    match r.writer
    case Ready => true
    case HasHead(h) => h == r.head
    case Draining(h, t) => h == r.head && h <= t <= r.tail
  }

  ghost predicate Inv(r: Ring) {
    && |r.entries| == r.tail && r.head <= r.tail && |r.rows| == r.head && |r.slots| == SIZE && WriterOk(r)
    && r.started == r.tail + r.dropped + Flying(r.producers)
    && (forall i: nat | i < |r.producers| :: ProducerOk(r, i))
    && (forall x: nat | x < |r.entries| :: EntryOk(r, x))
  }

  // ---------- How full the ring can get ----------

  // The entries past the last slot of the ring were taken by different producers: each had
  // loaded tail before the first of them was taken.
  lemma Crowded(r: Ring, x: nat, y: nat)
    requires Inv(r) && r.head + SIZE - 1 <= x < y < r.tail
    ensures r.entries[x].owner != r.entries[y].owner
  {
    assert EntryOk(r, y);
    assert r.entries[..y][x] == r.entries[x];
  }

  // Distinct numbers below n: there are at most n of them.
  lemma {:induction false} Pigeonhole(s: seq<int>, n: nat)
    requires forall x | 0 <= x < |s| :: 0 <= s[x] < n
    requires forall x, y | 0 <= x < y < |s| :: s[x] != s[y]
    ensures |s| <= n
    decreases n
  {
    if |s| > 0 {
      assert 0 <= s[0] < n;
      if x :| 0 <= x < |s| && s[x] == n - 1 {
        Pigeonhole(s[..x] + s[x + 1..], n - 1);
      } else {
        Pigeonhole(s, n - 1);
      }
    }
  }

  // The ring holds at most 4096 + P - 1 entries.
  lemma Bound(r: Ring)
    requires Inv(r) && |r.producers| > 0
    ensures r.tail - r.head <= SIZE + |r.producers| - 1
  {
    var from := r.head + SIZE - 1;
    if r.tail > from {
      var owners := seq(r.tail - from, k requires 0 <= k < r.tail - from => r.entries[from + k].owner);
      forall k | 0 <= k < |owners|
        ensures 0 <= owners[k] < |r.producers|
      {
        assert EntryOk(r, from + k);
      }
      forall j, k | 0 <= j < k < |owners|
        ensures owners[j] != owners[k]
      {
        Crowded(r, from + j, from + k);
      }
      Pigeonhole(owners, |r.producers|);
    }
  }

  // ---------- Every step keeps the invariant ----------

  lemma {:induction false} FlyingUpdate(ps: seq<Producer>, i: nat, p: Producer)
    requires i < |ps|
    ensures Flying(ps[i := p]) == Flying(ps) - (if InFlight(ps[i]) then 1 else 0) + (if InFlight(p) then 1 else 0)
  {
    var n := |ps| - 1;
    if i < n {
      FlyingUpdate(ps[..n], i, p);
      assert ps[i := p][..n] == ps[..n][i := p];
    } else {
      assert ps[i := p][..n] == ps[..n];
    }
  }

  predicate Small(r: Ring) { 0 < |r.producers| <= WORD - SIZE }

  // The counters only grow, so what was loaded stays behind them.
  lemma OthersKeep(r: Ring, s: Ring, i: nat)
    requires Inv(r) && |s.producers| == |r.producers| && s.entries == r.entries && s.tail == r.tail && s.head >= r.head
    requires forall j: nat | j < |r.producers| && j != i :: s.producers[j] == r.producers[j]
    ensures forall j: nat | j < |s.producers| && j != i :: ProducerOk(s, j)
    ensures forall x: nat | x < |s.entries| :: EntryOk(s, x)
  {
    forall j: nat | j < |s.producers| && j != i
      ensures ProducerOk(s, j)
    {
      assert ProducerOk(r, j);
    }
    forall x: nat | x < |s.entries|
      ensures EntryOk(s, x)
    {
      assert EntryOk(r, x);
    }
  }

  // Taking a slot.
  lemma TakeKeeps(r: Ring, i: nat)
    requires Inv(r) && Small(r) && Enabled(r, TakeSlot(i))
    ensures Inv(Apply(r, TakeSlot(i)))
  {
    var s := Apply(r, TakeSlot(i));
    assert ProducerOk(r, i);
    FlyingUpdate(r.producers, i, Filling(r.tail));
    forall j: nat | j < |s.producers|
      ensures ProducerOk(s, j)
    {
      assert ProducerOk(r, j);
    }
    forall x: nat | x < |s.entries|
      ensures EntryOk(s, x)
    {
      if x < |r.entries| {
        assert EntryOk(r, x);
        assert s.entries[..x] == r.entries[..x];
      } else {
        assert s.entries[..x] == r.entries;
      }
    }
  }

  // The other steps of a producer.
  lemma ProducerKeeps(r: Ring, a: Action, i: nat)
    requires Inv(r) && Small(r) && Enabled(r, a)
    requires a == Enter(i) || a == LoadTail(i) || a == LoadHead(i) || a == SeeRoom(i) || a == Drop(i) || a == Fill(i)
    ensures Inv(Apply(r, a))
  {
    var s := Apply(r, a);
    assert ProducerOk(r, i);
    FlyingUpdate(r.producers, i, s.producers[i]);
    OthersKeep(r, s, i);
    Bound(r);
    assert ProducerOk(s, i);
  }

  lemma WriterKeeps(r: Ring, a: Action)
    requires Inv(r) && Enabled(r, a) && (a.WriterLoadHead? || a.WriterLoadTail? || a.WriteRow? || a.EndBatch?)
    ensures Inv(Apply(r, a))
  {
    OthersKeep(r, Apply(r, a), |r.producers|);
  }

  lemma StepKeeps(r: Ring, a: Action)
    requires Inv(r) && Small(r) && Enabled(r, a)
    ensures Inv(Apply(r, a)) && Small(Apply(r, a)) && |Apply(r, a).producers| == |r.producers|
  {
    if a.WriterLoadHead? || a.WriterLoadTail? || a.WriteRow? || a.EndBatch? {
      WriterKeeps(r, a);
    } else if a.TakeSlot? {
      TakeKeeps(r, a.i);
    } else {
      ProducerKeeps(r, a, a.i);
    }
  }

  // ---------- Whole runs ----------

  // The state after a run of steps, if each is possible in its turn.
  function After(r: Ring, acts: seq<Action>): Option<Ring>
    decreases |acts|
  {
    if acts == [] then Some(r) else
    var before, a := After(r, acts[..|acts| - 1]), acts[|acts| - 1];
    if before.Some? && Enabled(before.value, a) then Some(Apply(before.value, a)) else None
  }

  lemma OneMore(r: Ring, acts: seq<Action>, a: Action)
    requires After(r, acts).Some? && Enabled(After(r, acts).value, a)
    ensures After(r, acts + [a]) == Some(Apply(After(r, acts).value, a))
  {
    assert (acts + [a])[..|acts|] == acts;
  }

  lemma {:induction false} RunKeeps(r: Ring, acts: seq<Action>)
    requires Inv(r) && Small(r) && After(r, acts).Some?
    ensures Inv(After(r, acts).value) && |After(r, acts).value.producers| == |r.producers|
    decreases |acts|
  {
    if acts != [] {
      RunKeeps(r, acts[..|acts| - 1]);
      StepKeeps(After(r, acts[..|acts| - 1]).value, acts[|acts| - 1]);
    }
  }

  lemma {:induction false} NoneFlying(ps: seq<Producer>)
    requires forall i | 0 <= i < |ps| :: !InFlight(ps[i])
    ensures Flying(ps) == 0
  {
    if |ps| > 0 {
      NoneFlying(ps[..|ps| - 1]);
    }
  }

  lemma StartsWell(p: nat)
    ensures Inv(Initial(p))
  {
    NoneFlying(Initial(p).producers);
  }

  // In every interleaving of p producers and the writer: head never passes tail, the ring never
  // holds more than 4096 + p - 1 entries although the test for room uses loads that may be stale,
  // and once no call is in flight each call was accepted or dropped, and counted once.
  lemma RingSafety(p: nat, acts: seq<Action>)
    requires 0 < p <= WORD - SIZE && After(Initial(p), acts).Some?
    ensures var r := After(Initial(p), acts).value;
      && r.head <= r.tail <= r.head + SIZE + p - 1
      && |r.entries| == r.tail
      && ((forall i | 0 <= i < |r.producers| :: !InFlight(r.producers[i])) ==> r.tail + r.dropped == r.started)
  {
    StartsWell(p);
    RunKeeps(Initial(p), acts);
    var r := After(Initial(p), acts).value;
    Bound(r);
    if forall i | 0 <= i < |r.producers| :: !InFlight(r.producers[i]) {
      NoneFlying(r.producers);
    }
  }

  // ---------- The bound is reached ----------

  // The first k producers are in one state, the others in another, and the ring holds tail entries.
  predicate Shape(r: Ring, p: nat, k: nat, tail: nat, low: Producer -> bool, high: Producer -> bool) {
    && |r.producers| == p && r.head == 0 && r.tail == tail && k <= p
    && (forall i | 0 <= i < k :: low(r.producers[i])) && (forall i | k <= i < p :: high(r.producers[i]))
  }

  // Four steps take an idle producer to a commitment while there is room.
  lemma Commit(r0: Ring, acts: seq<Action>, i: nat) returns (more: seq<Action>)
    requires After(r0, acts).Some?
    requires var r := After(r0, acts).value;
      i < |r.producers| && r.producers[i].Idle? && r.head == 0 && r.tail < SIZE
    ensures After(r0, more).Some?
    ensures var r := After(r0, acts).value;
      After(r0, more).value == r.(producers := r.producers[i := Committed(r.tail, 0)], started := r.started + 1)
  {
    hide After;
    var r := After(r0, acts).value;
    OneMore(r0, acts, Enter(i));
    more := acts + [Enter(i)];
    OneMore(r0, more, LoadTail(i));
    more := more + [LoadTail(i)];
    OneMore(r0, more, LoadHead(i));
    more := more + [LoadHead(i)];
    OneMore(r0, more, SeeRoom(i));
    more := more + [SeeRoom(i)];
    assert r.producers[i := Entered][i := HasTail(r.tail)][i := HasBoth(r.tail, 0)][i := Committed(r.tail, 0)]
        == r.producers[i := Committed(r.tail, 0)];
  }

  lemma {:induction false} FillAlone(p: nat, n: nat) returns (acts: seq<Action>)
    requires p > 0 && n < SIZE
    ensures After(Initial(p), acts).Some?
    ensures Shape(After(Initial(p), acts).value, p, 0, n, (q: Producer) => true, (q: Producer) => q.Idle?)
    decreases n
  {
    var r0 := Initial(p);
    if n == 0 {
      acts := [];
    } else {
      acts := FillAlone(p, n - 1);
      acts := Commit(r0, acts, 0);
      OneMore(r0, acts, TakeSlot(0));
      acts := acts + [TakeSlot(0)];
      OneMore(r0, acts, Fill(0));
      acts := acts + [Fill(0)];
    }
  }

  lemma {:induction false} CommitAll(p: nat, k: nat) returns (acts: seq<Action>)
    requires k <= p && p > 0
    ensures After(Initial(p), acts).Some?
    ensures Shape(After(Initial(p), acts).value, p, k, SIZE - 1,
      (q: Producer) => q.Committed?, (q: Producer) => q.Idle?)
    decreases k
  {
    if k == 0 {
      acts := FillAlone(p, SIZE - 1);
    } else {
      acts := CommitAll(p, k - 1);
      acts := Commit(Initial(p), acts, k - 1);
    }
  }

  lemma {:induction false} TakeAll(p: nat, k: nat) returns (acts: seq<Action>)
    requires k <= p && p > 0
    ensures After(Initial(p), acts).Some?
    ensures Shape(After(Initial(p), acts).value, p, k, SIZE - 1 + k,
      (q: Producer) => true, (q: Producer) => q.Committed?)
    decreases k
  {
    if k == 0 {
      acts := CommitAll(p, p);
    } else {
      acts := TakeAll(p, k - 1);
      OneMore(Initial(p), acts, TakeSlot(k - 1));
      acts := acts + [TakeSlot(k - 1)];
    }
  }

  // Some interleaving of p producers does put 4096 + p - 1 entries into the 4096 slots.
  lemma BoundIsReached(p: nat) returns (acts: seq<Action>)
    requires p > 0
    ensures After(Initial(p), acts).Some?
    ensures var r := After(Initial(p), acts).value;
      r.tail - r.head == SIZE + p - 1
  {
    acts := TakeAll(p, p);
  }
}
