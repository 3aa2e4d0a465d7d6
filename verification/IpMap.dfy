/** ip_map.c: the lock-free get-or-create of the address table, one atomic operation at a time.
    Any number of threads interleave. Runs in which a thread exhausts its 200 probes end that
    thread's call without a slot: forced replacement and eviction are not part of these runs. */
module IpMap {

  const CAPACITY := 65536

  const MAX_PROBE := 200

  const IP_STR_LEN := 46

  datatype SlotState = Empty | Reserved | Ready

  // A slot; `key` and `dist` record for whom it was reserved and after how many probes.
  datatype Slot = Slot(state: SlotState, ip: string, key: string, dist: nat)

  // Where a thread stands inside ipmap_get_or_create.
  datatype Thread =
    | Idle
    | Probing(ip: string, idx: nat, probe: nat)   // about to try the CAS
    | Looking(ip: string, idx: nat, probe: nat)   // CAS lost, waiting for the slot to be ready
    | Copying(ip: string, idx: nat)               // CAS won, address not copied yet
    | Copied(ip: string, idx: nat)                // address copied, size not raised yet
    | Counted(ip: string, idx: nat)               // size raised, slot not published yet
    | GaveUp

  // What a call returned.
  datatype Answer = Answer(ip: string, idx: nat)

  datatype Table = Table(slots: seq<Slot>, size: nat, threads: seq<Thread>, answers: seq<Answer>)

  datatype Action =
    | Call(th: nat, ip: string) | TryReserve(th: nat) | Look(th: nat)
      | CopyIp(th: nat) | RaiseSize(th: nat) | Publish(th: nat)

  // The table is used with one hash function throughout.
  function Home(hash: string -> nat, ip: string): nat { hash(ip) % CAPACITY }

  function Position(hash: string -> nat, ip: string, k: nat): (r: nat)
    ensures r < CAPACITY
  {
    (hash(ip) + k) % CAPACITY
  }

  predicate Enabled(t: Table, a: Action) {
    && a.th < |t.threads| && |t.slots| == CAPACITY
    && var s := t.threads[a.th];
       match a
       case Call(_, ip) => s.Idle? && 0 < |ip| < IP_STR_LEN
       case TryReserve(_) => s.Probing? && s.idx < CAPACITY
       case Look(_) => s.Looking? && s.idx < CAPACITY && !t.slots[s.idx].state.Reserved?
       case CopyIp(_) => s.Copying? && s.idx < CAPACITY
       case RaiseSize(_) => s.Copied?
       case Publish(_) => s.Counted? && s.idx < CAPACITY
  }

  function SetThread(t: Table, th: nat, s: Thread): Table
    requires th < |t.threads|
  {
    t.(threads := t.threads[th := s])
  }

  function SetSlot(t: Table, i: nat, s: Slot): Table
    requires i < |t.slots|
  {
    t.(slots := t.slots[i := s])
  }

  function Return(t: Table, th: nat, ip: string, idx: nat): Table
    requires th < |t.threads|
  {
    SetThread(t, th, Idle).(answers := t.answers + [Answer(ip, idx)])
  }

  // One atomic step.
  function Apply(hash: string -> nat, t: Table, a: Action): Table
    requires Enabled(t, a)
  {
    var s := t.threads[a.th];
    match a
    case Call(th, ip) => SetThread(t, th, Probing(ip, Home(hash, ip), 0))
    case TryReserve(th) =>
      if t.slots[s.idx].state.Empty? then
        SetSlot(SetThread(t, th, Copying(s.ip, s.idx)), s.idx, Slot(Reserved, t.slots[s.idx].ip, s.ip, s.probe))
      else SetThread(t, th, Looking(s.ip, s.idx, s.probe))
    case Look(th) =>
      if t.slots[s.idx].state.Ready? && t.slots[s.idx].ip == s.ip then Return(t, th, s.ip, s.idx)
      else if s.probe + 1 < MAX_PROBE then SetThread(t, th, Probing(s.ip, (s.idx + 1) % CAPACITY, s.probe + 1))
      else SetThread(t, th, GaveUp)
    case CopyIp(th) => SetSlot(SetThread(t, th, Copied(s.ip, s.idx)), s.idx, t.slots[s.idx].(ip := s.ip))
    case RaiseSize(th) => SetThread(t, th, Counted(s.ip, s.idx)).(size := t.size + 1)
    case Publish(th) => SetSlot(Return(t, th, s.ip, s.idx), s.idx, t.slots[s.idx].(state := Ready))
  }

  function Initial(n: nat): Table {
    Table(seq(CAPACITY, i => Slot(Empty, "", "", 0)), 0, seq(n, i => Idle), [])
  }

  // ---------- The invariant ----------

  // The first n slots of the probe chain of ip are taken by other addresses for good.
  ghost predicate Passed(hash: string -> nat, t: Table, ip: string, n: nat)
    requires |t.slots| == CAPACITY
  {
    forall k: nat | k < n :: TakenByOther(t, Position(hash, ip, k), ip)
  }

  predicate TakenByOther(t: Table, i: nat, ip: string)
    requires i < |t.slots|
  {
    t.slots[i].state.Ready? && t.slots[i].ip != ip
  }

  ghost predicate SlotOk(hash: string -> nat, t: Table, i: nat)
    requires |t.slots| == CAPACITY && i < CAPACITY
  {
    var s := t.slots[i];
    && (!s.state.Empty? ==>
          Position(hash, s.key, s.dist) == i && s.dist < MAX_PROBE && 0 < |s.key| < IP_STR_LEN
            && Passed(hash, t, s.key, s.dist))
    && (s.state.Ready? ==> s.ip == s.key)
  }

  predicate IsProbe(hash: string -> nat, ip: string, idx: nat, probe: nat) {
    idx == Position(hash, ip, probe) && probe < MAX_PROBE && 0 < |ip| < IP_STR_LEN
  }

  // The thread that won the CAS owns the slot until it publishes it.
  ghost predicate ThreadOk(hash: string -> nat, t: Table, th: nat)
    requires |t.slots| == CAPACITY && th < |t.threads|
  {
    match t.threads[th]
    case Probing(ip, idx, probe) => IsProbe(hash, ip, idx, probe) && Passed(hash, t, ip, probe)
    case Looking(ip, idx, probe) =>
      IsProbe(hash, ip, idx, probe) && Passed(hash, t, ip, probe) && !t.slots[idx].state.Empty?
    case Copying(ip, idx) => Owns(t, th, ip, idx)
    case Copied(ip, idx) => Owns(t, th, ip, idx) && t.slots[idx].ip == ip
    case Counted(ip, idx) => Owns(t, th, ip, idx) && t.slots[idx].ip == ip
    case _ => true
  }

  predicate IsWriter(s: Thread) { s.Copying? || s.Copied? || s.Counted? }

  ghost predicate Owns(t: Table, th: nat, ip: string, idx: nat) {
    && idx < |t.slots| && t.slots[idx].state.Reserved? && t.slots[idx].key == ip
    && (forall v: nat | v < |t.threads| && v != th && IsWriter(t.threads[v]) :: t.threads[v].idx != idx)
  }

  ghost predicate Inv(hash: string -> nat, t: Table) {
    && |t.slots| == CAPACITY
    && (forall i: nat | i < CAPACITY :: SlotOk(hash, t, i))
    && (forall th: nat | th < |t.threads| :: ThreadOk(hash, t, th))
    && (forall k: nat | k < |t.answers| :: AnswerOk(t, t.answers[k]))
  }

  predicate AnswerOk(t: Table, a: Answer) {
    a.idx < |t.slots| && t.slots[a.idx].state.Ready? && t.slots[a.idx].ip == a.ip
  }

  // Slots only move forward: empty, reserved for a key, ready with that key.
  ghost predicate Forward(t: Table, u: Table) {
    && |t.slots| == |u.slots| == CAPACITY
    && (forall i: nat | i < CAPACITY :: SlotForward(t.slots[i], u.slots[i]))
  }

  predicate SlotForward(s: Slot, r: Slot) {
    && (s.state.Ready? ==> r == s)
    && (s.state.Reserved? ==> !r.state.Empty? && r.key == s.key && r.dist == s.dist)
  }

  lemma PassedForward(hash: string -> nat, t: Table, u: Table, ip: string, n: nat)
    requires Forward(t, u) && Passed(hash, t, ip, n)
    ensures Passed(hash, u, ip, n)
  {
    forall k: nat | k < n
      ensures TakenByOther(u, Position(hash, ip, k), ip)
    {
      assert TakenByOther(t, Position(hash, ip, k), ip);
      assert SlotForward(t.slots[Position(hash, ip, k)], u.slots[Position(hash, ip, k)]);
    }
  }

  // ---------- Every step keeps the invariant ----------

  // A step of thread th that touches at most slot i, and nothing that another thread owns.
  ghost predicate Local(t: Table, u: Table, th: nat, i: nat) {
    && th < |t.threads| && i < CAPACITY && Forward(t, u) && |u.threads| == |t.threads|
    && (forall v: nat | v < |t.threads| && v != th :: u.threads[v] == t.threads[v])
    && (forall j: nat | j < CAPACITY && j != i :: u.slots[j] == t.slots[j])
    && (IsWriter(u.threads[th]) ==> u.threads[th].idx == i)
    && (u.slots[i] != t.slots[i] || IsWriter(u.threads[th]) ==>
          t.slots[i].state.Empty? || (IsWriter(t.threads[th]) && t.threads[th].idx == i))
  }

  lemma OtherThreads(hash: string -> nat, t: Table, u: Table, th: nat, i: nat, v: nat)
    requires Inv(hash, t) && Local(t, u, th, i) && v < |t.threads| && v != th
    ensures ThreadOk(hash, u, v)
  {
    assert ThreadOk(hash, t, v) && ThreadOk(hash, t, th);
    var s := u.threads[v];
    if s.Probing? || s.Looking? {
      PassedForward(hash, t, u, s.ip, s.probe);
      assert SlotForward(t.slots[s.idx], u.slots[s.idx]);
    } else if IsWriter(s) {
      assert Owns(t, v, s.ip, s.idx);
      if s.idx == i {
        assert u.slots[i] == t.slots[i] && !IsWriter(u.threads[th]);
      }
      assert Owns(u, v, s.ip, s.idx);
    }
  }

  lemma OtherSlots(hash: string -> nat, t: Table, u: Table, th: nat, i: nat, j: nat)
    requires Inv(hash, t) && Local(t, u, th, i) && j < CAPACITY && j != i
    ensures SlotOk(hash, u, j)
  {
    assert SlotOk(hash, t, j);
    if !t.slots[j].state.Empty? {
      PassedForward(hash, t, u, t.slots[j].key, t.slots[j].dist);
    }
  }

  // What is left to show for a step: its own thread, its own slot and the new answer.
  lemma LocalKeeps(hash: string -> nat, t: Table, u: Table, th: nat, i: nat)
    requires Inv(hash, t) && Local(t, u, th, i) && ThreadOk(hash, u, th) && SlotOk(hash, u, i)
    requires t.answers <= u.answers && |u.answers| <= |t.answers| + 1
    requires |u.answers| > |t.answers| ==> AnswerOk(u, u.answers[|t.answers|])
    ensures Inv(hash, u)
  {
    forall j: nat | j < CAPACITY
      ensures SlotOk(hash, u, j)
    {
      if j != i {
        OtherSlots(hash, t, u, th, i, j);
      }
    }
    forall v: nat | v < |u.threads|
      ensures ThreadOk(hash, u, v)
    {
      if v != th {
        OtherThreads(hash, t, u, th, i, v);
      }
    }
    forall k: nat | k < |u.answers|
      ensures AnswerOk(u, u.answers[k])
    {
      if k < |t.answers| {
        assert AnswerOk(t, t.answers[k]);
        assert SlotForward(t.slots[t.answers[k].idx], u.slots[t.answers[k].idx]);
      }
    }
  }

  lemma NextPosition(hash: string -> nat, ip: string, k: nat)
    ensures (Position(hash, ip, k) + 1) % CAPACITY == Position(hash, ip, k + 1)
  {
  }

  lemma CallKeeps(hash: string -> nat, t: Table, th: nat, ip: string)
    requires Inv(hash, t) && Enabled(t, Call(th, ip))
    ensures Inv(hash, Apply(hash, t, Call(th, ip)))
  {
    var u := Apply(hash, t, Call(th, ip));
    assert SlotOk(hash, t, 0);
    LocalKeeps(hash, t, u, th, 0);
  }

  lemma ReserveKeeps(hash: string -> nat, t: Table, th: nat)
    requires Inv(hash, t) && Enabled(t, TryReserve(th))
    ensures Inv(hash, Apply(hash, t, TryReserve(th)))
  {
    var u, s := Apply(hash, t, TryReserve(th)), t.threads[th];
    assert ThreadOk(hash, t, th) && SlotOk(hash, t, s.idx);
    PassedForward(hash, t, u, s.ip, s.probe);
    if t.slots[s.idx].state.Empty? {
      forall v: nat | v < |u.threads| && v != th && IsWriter(u.threads[v])
        ensures u.threads[v].idx != s.idx
      {
        assert ThreadOk(hash, t, v);
      }
    }
    LocalKeeps(hash, t, u, th, s.idx);
  }

  lemma LookKeeps(hash: string -> nat, t: Table, th: nat)
    requires Inv(hash, t) && Enabled(t, Look(th))
    ensures Inv(hash, Apply(hash, t, Look(th)))
  {
    var u, s := Apply(hash, t, Look(th)), t.threads[th];
    assert ThreadOk(hash, t, th) && SlotOk(hash, t, s.idx);
    NextPosition(hash, s.ip, s.probe);
    if u.threads[th].Probing? {
      forall k: nat | k < s.probe + 1
        ensures TakenByOther(u, Position(hash, s.ip, k), s.ip)
      {
        if k < s.probe {
          assert TakenByOther(t, Position(hash, s.ip, k), s.ip);
        }
      }
    }
    assert u.slots == t.slots;
    LocalKeeps(hash, t, u, th, s.idx);
  }

  lemma WriteKeeps(hash: string -> nat, t: Table, a: Action)
    requires Inv(hash, t) && Enabled(t, a) && (a.CopyIp? || a.RaiseSize? || a.Publish?)
    ensures Inv(hash, Apply(hash, t, a))
  {
    var u, s := Apply(hash, t, a), t.threads[a.th];
    assert ThreadOk(hash, t, a.th) && SlotOk(hash, t, s.idx);
    PassedForward(hash, t, u, s.ip, t.slots[s.idx].dist);
    LocalKeeps(hash, t, u, a.th, s.idx);
  }

  lemma StepKeeps(hash: string -> nat, t: Table, a: Action)
    requires Inv(hash, t) && Enabled(t, a)
    ensures Inv(hash, Apply(hash, t, a))
  {
    if a.Call? {
      CallKeeps(hash, t, a.th, a.ip);
    } else if a.TryReserve? {
      ReserveKeeps(hash, t, a.th);
    } else if a.Look? {
      LookKeeps(hash, t, a.th);
    } else {
      WriteKeeps(hash, t, a);
    }
  }

  // No two slots are reserved for, or hold, the same address.
  lemma Unique(hash: string -> nat, t: Table, i: nat, j: nat)
    requires Inv(hash, t) && i < CAPACITY && j < CAPACITY && i != j
    requires !t.slots[i].state.Empty? && !t.slots[j].state.Empty?
    ensures t.slots[i].key != t.slots[j].key
  {
    assert SlotOk(hash, t, i) && SlotOk(hash, t, j);
    if t.slots[i].dist < t.slots[j].dist {
      assert TakenByOther(t, Position(hash, t.slots[j].key, t.slots[i].dist), t.slots[j].key);
    } else if t.slots[j].dist < t.slots[i].dist {
      assert TakenByOther(t, Position(hash, t.slots[i].key, t.slots[j].dist), t.slots[i].key);
    }
  }

  // ---------- The size ----------

  function ReadySlots(slots: seq<Slot>): nat {
    if |slots| == 0 then 0 else ReadySlots(slots[..|slots| - 1]) + (if slots[|slots| - 1].state.Ready? then 1 else 0)
  }

  function CountedThreads(threads: seq<Thread>): nat {
    if |threads| == 0 then 0
      else CountedThreads(threads[..|threads| - 1]) + (if threads[|threads| - 1].Counted? then 1 else 0)
  }

  lemma {:induction false} ReadyUpdate(slots: seq<Slot>, i: nat, s: Slot)
    requires i < |slots|
    ensures ReadySlots(slots[i := s])
         == ReadySlots(slots) - (if slots[i].state.Ready? then 1 else 0) + (if s.state.Ready? then 1 else 0)
  {
    var n := |slots| - 1;
    if i < n {
      ReadyUpdate(slots[..n], i, s);
      assert slots[i := s][..n] == slots[..n][i := s];
    } else {
      assert slots[i := s][..n] == slots[..n];
    }
  }

  lemma {:induction false} CountedUpdate(threads: seq<Thread>, i: nat, s: Thread)
    requires i < |threads|
    ensures CountedThreads(threads[i := s])
         == CountedThreads(threads) - (if threads[i].Counted? then 1 else 0) + (if s.Counted? then 1 else 0)
  {
    var n := |threads| - 1;
    if i < n {
      CountedUpdate(threads[..n], i, s);
      assert threads[i := s][..n] == threads[..n][i := s];
    } else {
      assert threads[i := s][..n] == threads[..n];
    }
  }

  // Size is the number of ready slots and of slots about to become ready.
  predicate SizeOk(t: Table) { t.size == ReadySlots(t.slots) + CountedThreads(t.threads) }

  lemma SizeKeeps(hash: string -> nat, t: Table, a: Action)
    requires Inv(hash, t) && SizeOk(t) && Enabled(t, a)
    ensures SizeOk(Apply(hash, t, a))
  {
    var u, s := Apply(hash, t, a), t.threads[a.th];
    assert ThreadOk(hash, t, a.th);
    CountedUpdate(t.threads, a.th, u.threads[a.th]);
    if s.Probing? || IsWriter(s) {
      ReadyUpdate(t.slots, s.idx, u.slots[s.idx]);
      assert u.slots == t.slots[s.idx := u.slots[s.idx]];
    }
  }

  // ---------- Whole runs ----------

  predicate IsRun(hash: string -> nat, t: Table, acts: seq<Action>)
    decreases |acts|
  {
    acts == [] || (Enabled(t, acts[0]) && IsRun(hash, Apply(hash, t, acts[0]), acts[1..]))
  }

  function Final(hash: string -> nat, t: Table, acts: seq<Action>): Table
    requires IsRun(hash, t, acts)
    decreases |acts|
  {
    if acts == [] then t else Final(hash, Apply(hash, t, acts[0]), acts[1..])
  }

  lemma {:induction false} RunKeeps(hash: string -> nat, t: Table, acts: seq<Action>)
    requires Inv(hash, t) && SizeOk(t) && IsRun(hash, t, acts)
    ensures var u := Final(hash, t, acts);
      Inv(hash, u) && SizeOk(u) && t.answers <= u.answers
    decreases |acts|
  {
    if acts != [] {
      StepKeeps(hash, t, acts[0]);
      SizeKeeps(hash, t, acts[0]);
      RunKeeps(hash, Apply(hash, t, acts[0]), acts[1..]);
    }
  }

  lemma {:induction false} NothingReady(slots: seq<Slot>)
    requires forall i | 0 <= i < |slots| :: !slots[i].state.Ready?
    ensures ReadySlots(slots) == 0
  {
    if |slots| > 0 {
      NothingReady(slots[..|slots| - 1]);
    }
  }

  lemma {:induction false} NothingCounted(threads: seq<Thread>)
    requires forall i | 0 <= i < |threads| :: !threads[i].Counted?
    ensures CountedThreads(threads) == 0
  {
    if |threads| > 0 {
      NothingCounted(threads[..|threads| - 1]);
    }
  }

  // In every interleaving of n threads without eviction: no two slots hold the same address, all
  // calls for one address were answered with one slot, which holds that address, and when no
  // thread is writing the size is the number of ready slots.
  lemma MapSafety(hash: string -> nat, n: nat, acts: seq<Action>)
    requires IsRun(hash, Initial(n), acts)
    ensures var t := Final(hash, Initial(n), acts);
      && |t.slots| == CAPACITY
      && (forall i, j | 0 <= i < j < CAPACITY && t.slots[i].state.Ready? && t.slots[j].state.Ready? ::
        t.slots[i].ip != t.slots[j].ip)
      && (forall k, l | 0 <= k < |t.answers| && 0 <= l < |t.answers| && t.answers[k].ip == t.answers[l].ip ::
            t.answers[k].idx == t.answers[l].idx)
      && (forall k | 0 <= k < |t.answers| :: AnswerOk(t, t.answers[k]))
      && ((forall th | 0 <= th < |t.threads| :: !IsWriter(t.threads[th])) ==> t.size == ReadySlots(t.slots))
  {
    NothingReady(Initial(n).slots);
    NothingCounted(Initial(n).threads);
    assert Inv(hash, Initial(n));
    RunKeeps(hash, Initial(n), acts);
    var t := Final(hash, Initial(n), acts);
    forall i, j | 0 <= i < j < CAPACITY && t.slots[i].state.Ready? && t.slots[j].state.Ready?
      ensures t.slots[i].ip != t.slots[j].ip
    {
      Unique(hash, t, i, j);
      assert SlotOk(hash, t, i) && SlotOk(hash, t, j);
    }
    forall k, l | 0 <= k < |t.answers| && 0 <= l < |t.answers| && t.answers[k].ip == t.answers[l].ip
      ensures t.answers[k].idx == t.answers[l].idx
    {
      assert AnswerOk(t, t.answers[k]) && AnswerOk(t, t.answers[l]);
    }
    if forall th | 0 <= th < |t.threads| :: !IsWriter(t.threads[th]) {
      NothingCounted(t.threads);
    }
  }

  // ---------- What eviction breaks ----------

  // ipmap_evict_lru empties a slot and leaves no mark in the probe chain. Answers given before are
  // forgotten: they may name the slot.
  function Evict(t: Table, i: nat): Table
    requires i < |t.slots| && t.size > 0
  {
    t.(slots := t.slots[i := Slot(Empty, "", "", 0)], size := t.size - 1, answers := [])
  }

  // The probe chain of the address in slot j passes slot i at its probe k.
  predicate PassesThrough(hash: string -> nat, t: Table, i: nat, j: nat, k: nat)
    requires |t.slots| == CAPACITY
  {
    j < CAPACITY && j != i && !t.slots[j].state.Empty? && k < t.slots[j].dist && Position(hash, t.slots[j].key, k) == i
  }

  ghost predicate NoChainThrough(hash: string -> nat, t: Table, i: nat)
    requires |t.slots| == CAPACITY
  {
    forall j: nat, k: nat :: !PassesThrough(hash, t, i, j, k)
  }

  ghost predicate AllIdle(t: Table) { |t.threads| > 0 && forall th | 0 <= th < |t.threads| :: t.threads[th].Idle? }

  // Evicting a slot that no chain passes keeps the invariant.
  lemma EvictKeeps(hash: string -> nat, t: Table, i: nat)
    requires Inv(hash, t) && AllIdle(t) && i < CAPACITY && t.size > 0 && NoChainThrough(hash, t, i)
    ensures Inv(hash, Evict(t, i))
  {
    var u := Evict(t, i);
    forall j: nat | j < CAPACITY
      ensures SlotOk(hash, u, j)
    {
      assert SlotOk(hash, t, j);
      var s := t.slots[j];
      if j != i && !s.state.Empty? {
        forall k: nat | k < s.dist
          ensures TakenByOther(u, Position(hash, s.key, k), s.key)
        {
          assert TakenByOther(t, Position(hash, s.key, k), s.key);
          assert !PassesThrough(hash, t, i, j, k);
        }
      }
    }
    forall th: nat | th < |u.threads|
      ensures ThreadOk(hash, u, th)
    {
    }
  }

  // Two slots ready with one address.
  ghost predicate Duplicate(t: Table) {
    exists i, j | 0 <= i < j < |t.slots| :: SameAddress(t, i, j)
  }

  predicate SameAddress(t: Table, i: nat, j: nat)
    requires i < |t.slots| && j < |t.slots|
  {
    t.slots[i].state.Ready? && t.slots[j].state.Ready? && t.slots[i].ip == t.slots[j].ip
  }

  lemma NoDuplicate(hash: string -> nat, t: Table)
    requires Inv(hash, t)
    ensures !Duplicate(t)
  {
    forall i, j | 0 <= i < j < |t.slots|
      ensures !SameAddress(t, i, j)
    {
      assert SlotOk(hash, t, i) && SlotOk(hash, t, j);
      if SameAddress(t, i, j) {
        Unique(hash, t, i, j);
      }
    }
  }

  lemma {:induction false} Concat(hash: string -> nat, t: Table, a: seq<Action>, b: seq<Action>)
    requires IsRun(hash, t, a) && IsRun(hash, Final(hash, t, a), b)
    ensures IsRun(hash, t, a + b) && Final(hash, t, a + b) == Final(hash, Final(hash, t, a), b)
    decreases |a|
  {
    if a == [] {
      assert a + b == b;
    } else {
      Concat(hash, Apply(hash, t, a[0]), a[1..], b);
      assert (a + b)[1..] == a[1..] + b;
    }
  }

  lemma Single(hash: string -> nat, t: Table, a: Action)
    requires Enabled(t, a)
    ensures IsRun(hash, t, [a]) && Final(hash, t, [a]) == Apply(hash, t, a)
  {
    assert IsRun(hash, Apply(hash, t, a), []);
  }

  // The four steps of a lone thread that finds an empty slot.
  lemma Insert(hash: string -> nat, t: Table) returns (acts: seq<Action>)
    requires |t.slots| == CAPACITY && |t.threads| > 0 && t.threads[0].Probing? && t.threads[0].idx < CAPACITY
    requires t.slots[t.threads[0].idx].state.Empty?
    ensures IsRun(hash, t, acts)
    ensures var s, u := t.threads[0], Final(hash, t, acts);
      && u.slots == t.slots[s.idx := Slot(Ready, s.ip, s.ip, s.probe)]
        && u.threads == t.threads[0 := Idle] && u.size == t.size + 1
  {
    hide IsRun, Final;
    Single(hash, t, TryReserve(0));
    var t1 := Apply(hash, t, TryReserve(0));
    Single(hash, t1, CopyIp(0));
    Concat(hash, t, [TryReserve(0)], [CopyIp(0)]);
    acts := [TryReserve(0)] + [CopyIp(0)];
    var t2 := Apply(hash, t1, CopyIp(0));
    Single(hash, t2, RaiseSize(0));
    Concat(hash, t, acts, [RaiseSize(0)]);
    acts := acts + [RaiseSize(0)];
    var t3 := Apply(hash, t2, RaiseSize(0));
    Single(hash, t3, Publish(0));
    Concat(hash, t, acts, [Publish(0)]);
    acts := acts + [Publish(0)];
  }

  // A lone thread asks for an address whose first slot is empty.
  lemma CreateHome(hash: string -> nat, t: Table, ip: string) returns (acts: seq<Action>)
    requires |t.slots| == CAPACITY && t.threads == [Idle] && 0 < |ip| < IP_STR_LEN
    requires t.slots[Home(hash, ip)].state.Empty?
    ensures IsRun(hash, t, acts)
    ensures var u := Final(hash, t, acts);
      u.slots == t.slots[Home(hash, ip) := Slot(Ready, ip, ip, 0)] && u.threads == [Idle] && u.size == t.size + 1
  {
    hide IsRun, Final;
    Single(hash, t, Call(0, ip));
    var more := Insert(hash, Apply(hash, t, Call(0, ip)));
    Concat(hash, t, [Call(0, ip)], more);
    acts := [Call(0, ip)] + more;
  }

  // Or whose first slot is taken and whose second is empty.
  lemma CreateNext(hash: string -> nat, t: Table, ip: string) returns (acts: seq<Action>)
    requires |t.slots| == CAPACITY && t.threads == [Idle] && 0 < |ip| < IP_STR_LEN
    requires t.slots[Home(hash, ip)].state.Ready? && t.slots[Home(hash, ip)].ip != ip
    requires t.slots[(Home(hash, ip) + 1) % CAPACITY].state.Empty?
    ensures IsRun(hash, t, acts)
    ensures var u := Final(hash, t, acts);
      && u.slots == t.slots[(Home(hash, ip) + 1) % CAPACITY := Slot(Ready, ip, ip, 1)]
      && u.threads == [Idle] && u.size == t.size + 1
  {
    hide IsRun, Final;
    Single(hash, t, Call(0, ip));
    var t1 := Apply(hash, t, Call(0, ip));
    Single(hash, t1, TryReserve(0));
    Concat(hash, t, [Call(0, ip)], [TryReserve(0)]);
    var t2 := Apply(hash, t1, TryReserve(0));
    Single(hash, t2, Look(0));
    Concat(hash, t, [Call(0, ip)] + [TryReserve(0)], [Look(0)]);
    var t3 := Apply(hash, t2, Look(0));
    var more := Insert(hash, t3);
    Concat(hash, t, [Call(0, ip)] + [TryReserve(0)] + [Look(0)], more);
    acts := [Call(0, ip)] + [TryReserve(0)] + [Look(0)] + more;
  }

  // Two addresses that hash alike: evict the first and the second is created twice.
  lemma EvictionDuplicates(hash: string -> nat, x: string, y: string) returns (acts: seq<Action>, more: seq<Action>)
    requires 0 < |x| < IP_STR_LEN && 0 < |y| < IP_STR_LEN && x != y && Home(hash, x) == Home(hash, y)
    ensures IsRun(hash, Initial(1), acts)
    ensures var t := Final(hash, Initial(1), acts);
      && Home(hash, x) < |t.slots| && t.size > 0
      && IsRun(hash, Evict(t, Home(hash, x)), more)
      && var u := Final(hash, Evict(t, Home(hash, x)), more);
         exists i, j :: 0 <= i < |u.slots| && 0 <= j < |u.slots| && i != j && u.slots[i].state.Ready?
                        && u.slots[j].state.Ready? && u.slots[i].ip == u.slots[j].ip == y
  {
    hide IsRun, Final;
    var i := Home(hash, x);
    var j := (i + 1) % CAPACITY;
    assert Initial(1).threads == [Idle];
    var first := CreateHome(hash, Initial(1), x);
    var t1 := Final(hash, Initial(1), first);
    var second := CreateNext(hash, t1, y);
    Concat(hash, Initial(1), first, second);
    acts := first + second;
    var t := Evict(Final(hash, t1, second), i);
    more := CreateHome(hash, t, y);
    var u := Final(hash, t, more);
    assert u.slots[i].ip == u.slots[j].ip == y && i != j;
  }

  // A thread whose first n slots are taken by others gets to the next one.
  lemma {:induction false} ProbeOn(hash: string -> nat, t: Table, ip: string, n: nat) returns (acts: seq<Action>)
    requires |t.slots| == CAPACITY && |t.threads| > 0 && t.threads[0] == Probing(ip, Home(hash, ip), 0)
    requires n < MAX_PROBE && Passed(hash, t, ip, n)
    ensures IsRun(hash, t, acts)
    ensures Final(hash, t, acts) == SetThread(t, 0, Probing(ip, Position(hash, ip, n), n))
    decreases n
  {
    if n == 0 {
      acts := [];
      assert t.threads[0 := t.threads[0]] == t.threads;
    } else {
      hide IsRun, Final;
      acts := ProbeOn(hash, t, ip, n - 1);
      var u := SetThread(t, 0, Probing(ip, Position(hash, ip, n - 1), n - 1));
      assert TakenByOther(t, Position(hash, ip, n - 1), ip);
      Single(hash, u, TryReserve(0));
      Concat(hash, t, acts, [TryReserve(0)]);
      var v := Apply(hash, u, TryReserve(0));
      Single(hash, v, Look(0));
      Concat(hash, t, acts + [TryReserve(0)], [Look(0)]);
      NextPosition(hash, ip, n - 1);
      acts := acts + [TryReserve(0)] + [Look(0)];
    }
  }

  // Positions of one chain are different.
  lemma ChainDistinct(hash: string -> nat, ip: string, j: nat, k: nat)
    requires j < k < CAPACITY
    ensures Position(hash, ip, j) != Position(hash, ip, k)
  {
  }

  // If a chain passes the evicted slot, asking for its address again stores it twice.
  lemma EvictionRepeats(hash: string -> nat, t: Table, i: nat, j: nat, k: nat) returns (acts: seq<Action>)
    requires Inv(hash, t) && AllIdle(t) && i < CAPACITY && t.size > 0 && PassesThrough(hash, t, i, j, k)
    requires t.slots[j].state.Ready?
    ensures IsRun(hash, Evict(t, i), acts) && Duplicate(Final(hash, Evict(t, i), acts))
  {
    hide IsRun, Final;
    var u, ip := Evict(t, i), t.slots[j].key;
    assert SlotOk(hash, t, j);
    Single(hash, u, Call(0, ip));
    var v := Apply(hash, u, Call(0, ip));
    forall m: nat | m < k
      ensures TakenByOther(v, Position(hash, ip, m), ip)
    {
      assert TakenByOther(t, Position(hash, ip, m), ip);
      ChainDistinct(hash, ip, m, k);
    }
    var walk := ProbeOn(hash, v, ip, k);
    Concat(hash, u, [Call(0, ip)], walk);
    var w := Final(hash, v, walk);
    var store := Insert(hash, w);
    Concat(hash, u, [Call(0, ip)] + walk, store);
    acts := [Call(0, ip)] + walk + store;
    var end := Final(hash, w, store);
    assert end.slots[i].ip == end.slots[j].ip == ip;
    var a, b := if i < j then i else j, if i < j then j else i;
    assert SameAddress(end, a, b);
  }

  // A reserved slot has a writer at work on it.
  predicate Writes(t: Table, th: nat, i: nat) { th < |t.threads| && IsWriter(t.threads[th]) && t.threads[th].idx == i }

  ghost predicate Owned(t: Table, i: nat)
    requires i < |t.slots|
  {
    t.slots[i].state.Reserved? ==> exists th: nat :: Writes(t, th, i)
  }

  ghost predicate AllOwned(t: Table) { forall i: nat | i < |t.slots| :: Owned(t, i) }

  lemma OwnersKeep(hash: string -> nat, t: Table, a: Action)
    requires Inv(hash, t) && AllOwned(t) && Enabled(t, a)
    ensures AllOwned(Apply(hash, t, a))
  {
    var u := Apply(hash, t, a);
    forall i: nat | i < |u.slots|
      ensures Owned(u, i)
    {
      assert Owned(t, i);
      OwnerKept(hash, t, a, i);
    }
  }

  lemma OwnerKept(hash: string -> nat, t: Table, a: Action, i: nat)
    requires |t.slots| == CAPACITY && i < CAPACITY && Owned(t, i) && Enabled(t, a)
    ensures Owned(Apply(hash, t, a), i)
  {
    var u := Apply(hash, t, a);
    if u.slots[i].state.Reserved? {
      if t.slots[i].state.Reserved? {
        var th: nat :| Writes(t, th, i);
        assert Writes(u, th, i);
      } else {
        assert Writes(u, a.th, i);
      }
    }
  }

  lemma {:induction false} RunOwners(hash: string -> nat, t: Table, acts: seq<Action>)
    requires Inv(hash, t) && AllOwned(t) && IsRun(hash, t, acts)
    ensures AllOwned(Final(hash, t, acts))
    decreases |acts|
  {
    if acts != [] {
      hide AllOwned, Inv;
      StepKeeps(hash, t, acts[0]);
      OwnersKeep(hash, t, acts[0]);
      RunOwners(hash, Apply(hash, t, acts[0]), acts[1..]);
    }
  }

  lemma ReachedIdle(hash: string -> nat, n: nat, acts: seq<Action>, i: nat)
    requires IsRun(hash, Initial(n), acts) && AllIdle(Final(hash, Initial(n), acts)) && i < CAPACITY
    requires i < |Final(hash, Initial(n), acts).slots| && Final(hash, Initial(n), acts).slots[i].state.Ready?
    ensures var t := Final(hash, Initial(n), acts);
      Inv(hash, t) && SizeOk(t) && t.size > 0 && forall j | 0 <= j < CAPACITY :: !t.slots[j].state.Reserved?
  {
    NothingReady(Initial(n).slots);
    NothingCounted(Initial(n).threads);
    assert Inv(hash, Initial(n));
    RunKeeps(hash, Initial(n), acts);
    RunOwners(hash, Initial(n), acts);
    var t := Final(hash, Initial(n), acts);
    hide IsRun, Final;
    forall j: nat | j < CAPACITY
      ensures !t.slots[j].state.Reserved?
    {
      assert Owned(t, j);
    }
    ReadyUpdate(t.slots, i, Slot(Empty, "", "", 0));
  }

  // After every run that leaves the threads idle: evicting a slot is harmless, so that no later run
  // holds an address twice, if and only if no other address's probe chain passes the slot.
  lemma EvictionSafeExactly(hash: string -> nat, n: nat, acts: seq<Action>, i: nat)
    requires IsRun(hash, Initial(n), acts) && AllIdle(Final(hash, Initial(n), acts)) && i < CAPACITY
    requires i < |Final(hash, Initial(n), acts).slots| && Final(hash, Initial(n), acts).slots[i].state.Ready?
    ensures var t := Final(hash, Initial(n), acts);
      && |t.slots| == CAPACITY && t.size > 0
      && (NoChainThrough(hash, t, i) <==>
            forall more | IsRun(hash, Evict(t, i), more) :: !Duplicate(Final(hash, Evict(t, i), more)))
  {
    hide IsRun, Final, Duplicate;
    ReachedIdle(hash, n, acts, i);
    var t := Final(hash, Initial(n), acts);
    if NoChainThrough(hash, t, i) {
      EvictKeeps(hash, t, i);
      EvictSize(t, i);
      forall more | IsRun(hash, Evict(t, i), more)
        ensures !Duplicate(Final(hash, Evict(t, i), more))
      {
        RunKeeps(hash, Evict(t, i), more);
        NoDuplicate(hash, Final(hash, Evict(t, i), more));
      }
    } else {
      var j: nat, k: nat :| PassesThrough(hash, t, i, j, k);
      assert !t.slots[j].state.Reserved?;
      var more := EvictionRepeats(hash, t, i, j, k);
    }
  }

  lemma EvictSize(t: Table, i: nat)
    requires SizeOk(t) && i < |t.slots| && t.slots[i].state.Ready? && t.size > 0
    ensures SizeOk(Evict(t, i))
  {
    ReadyUpdate(t.slots, i, Slot(Empty, "", "", 0));
  }
}
