/** main.c: the single-producer multi-consumer work queue, one memory operation at a time. Any
    number of workers and one producer interleave; head, tail and done are sequentially
    consistent. A slot is two pointers, written and read one after the other. The ghost history
    keeps every chunk published, who claimed each index and what each claimant then read. */
module SpmcQueue {
  import opened Wrappers

  import Splitter

  const SIZE := 2048

  type WorkChunk = Splitter.Chunk

  // Where the producer stands inside spmc_enqueue.
  datatype Producer =
    | Idle
    | Waiting(h: nat, chunk: WorkChunk)   // head loaded, spinning on tail
    | Writing(h: nat, chunk: WorkChunk)   // room seen, about to fill the slot
    | Halfway(h: nat, chunk: WorkChunk)   // start written, end not yet
    | Publishing(h: nat, chunk: WorkChunk) // slot filled, about to store head

  // Where a worker stands in worker_loop. `late` records that head was loaded after done was set.
  datatype Worker =
    | Start
    | HasTail(t: nat)
    | HasBoth(t: nat, h: nat, late: bool)
    | Claimed(t: nat)                     // CAS done, slot not read yet
    | HalfRead(t: nat, start: nat, source: nat, inTime: bool) // start read, end not yet
    | Exited(late: bool, h: nat)          // left when it saw done, with the head it had loaded

  // What the claimant of an index read, and the indices its two pointers were written under. A read is
  // in time if that pointer had not been written again before it.
  datatype Receipt = Receipt(value: WorkChunk, startSource: nat, endSource: nat, startInTime: bool, endInTime: bool)

  datatype Queue = Queue(
    slots: seq<WorkChunk>, head: nat, tail: nat, done: bool,
    producer: Producer, workers: seq<Worker>,
    published: seq<WorkChunk>, claimants: seq<nat>, receipts: map<nat, Receipt>)

  datatype Action =
    | LoadHeadToEnqueue(chunk: WorkChunk) | SeeRoom | FillStart | FillEnd | StoreHead | SetDone
    | LoadTail(w: nat) | LoadHead(w: nat) | FindEmpty(w: nat) | Claim(w: nat) | LoseClaim(w: nat)
    | ReadStart(w: nat) | ReadEnd(w: nat)

  // Every chunk whose start, and every chunk whose end, has been written so far.
  function Starts(q: Queue): seq<WorkChunk> {
    if q.producer.Halfway? || q.producer.Publishing? then q.published + [q.producer.chunk] else q.published
  }

  function Ends(q: Queue): seq<WorkChunk> {
    if q.producer.Publishing? then q.published + [q.producer.chunk] else q.published
  }

  // The index whose chunk is in the slot of index t: the last one written there.
  function LastIn(t: nat, written: nat): (i: nat)
    requires t < written
    ensures t <= i < written && written <= i + SIZE
    ensures i == t <==> written <= t + SIZE
    decreases written - t
  {
    if written <= t + SIZE then t else LastIn(t + SIZE, written)
  }

  predicate Enabled(q: Queue, a: Action) {
    match a
    case LoadHeadToEnqueue(_) => q.producer.Idle? && !q.done
    case SeeRoom => q.producer.Waiting? && q.producer.h - q.tail < SIZE
    case FillStart => q.producer.Writing? && |q.slots| == SIZE
    case FillEnd => q.producer.Halfway? && |q.slots| == SIZE
    case StoreHead => q.producer.Publishing?
    case SetDone => q.producer.Idle?
    case LoadTail(w) => w < |q.workers| && q.workers[w].Start?
    case LoadHead(w) => w < |q.workers| && q.workers[w].HasTail?
    case FindEmpty(w) => w < |q.workers| && q.workers[w].HasBoth? && q.workers[w].t >= q.workers[w].h
    case Claim(w) =>
      w < |q.workers| && q.workers[w].HasBoth? && q.workers[w].t < q.workers[w].h && q.tail == q.workers[w].t
    case LoseClaim(w) => w < |q.workers| && q.workers[w].HasBoth? && q.workers[w].t < q.workers[w].h
    case ReadStart(w) => w < |q.workers| && q.workers[w].Claimed? && |q.slots| == SIZE && q.workers[w].t < |Starts(q)|
    case ReadEnd(w) => w < |q.workers| && q.workers[w].HalfRead? && |q.slots| == SIZE && q.workers[w].t < |Ends(q)|
  }

  function SetWorker(q: Queue, w: nat, s: Worker): Queue
    requires w < |q.workers|
  {
    q.(workers := q.workers[w := s])
  }

  // One atomic step.
  function Apply(q: Queue, a: Action): Queue
    requires Enabled(q, a)
  {
    match a
    case LoadHeadToEnqueue(chunk) => q.(producer := Waiting(q.head, chunk))
    case SeeRoom => q.(producer := Writing(q.producer.h, q.producer.chunk))
    case FillStart =>
      var i := q.producer.h % SIZE;
      q.(slots := q.slots[i := q.slots[i].(start := q.producer.chunk.start)],
        producer := Halfway(q.producer.h, q.producer.chunk))
    case FillEnd =>
      var i := q.producer.h % SIZE;
      q.(slots := q.slots[i := q.slots[i].(end := q.producer.chunk.end)],
        producer := Publishing(q.producer.h, q.producer.chunk))
    case StoreHead => q.(head := q.producer.h + 1, producer := Idle, published := q.published + [q.producer.chunk])
    case SetDone => q.(done := true)
    case LoadTail(w) => SetWorker(q, w, HasTail(q.tail))
    case LoadHead(w) => SetWorker(q, w, HasBoth(q.workers[w].t, q.head, q.done))
    case FindEmpty(w) => SetWorker(q, w, if q.done then Exited(q.workers[w].late, q.workers[w].h) else Start)
    case Claim(w) => SetWorker(q, w, Claimed(q.tail)).(tail := q.tail + 1, claimants := q.claimants + [w])
    case LoseClaim(w) => SetWorker(q, w, Start)
    case ReadStart(w) =>
      var t := q.workers[w].t;
      SetWorker(q, w, HalfRead(t, q.slots[t % SIZE].start, LastIn(t, |Starts(q)|), |Starts(q)| <= t + SIZE))
    case ReadEnd(w) =>
      var s, t := q.workers[w], q.workers[w].t;
      var value := Splitter.Chunk(s.start, q.slots[t % SIZE].end);
      var receipt := Receipt(value, s.source, LastIn(t, |Ends(q)|), s.inTime, |Ends(q)| <= t + SIZE);
      SetWorker(q, w, Start).(receipts := q.receipts[t := receipt])
  }

  function Initial(slots: seq<WorkChunk>, n: nat): Queue {
    Queue(slots, 0, 0, false, Idle, seq(n, i => Start), [], [], map[])
  }

  // ---------- The invariant ----------

  predicate ProducerOk(q: Queue) {
    && |q.published| == q.head
    && (!q.producer.Idle? ==> q.producer.h == q.head && !q.done)
    && (q.producer.Writing? || q.producer.Halfway? || q.producer.Publishing? ==> q.head - q.tail < SIZE)
  }

  // Each slot holds the last start and the last end written there.
  ghost predicate SlotsOk(q: Queue) {
    && |q.slots| == SIZE
    && (forall i: nat | i < |Starts(q)| && |Starts(q)| <= i + SIZE :: q.slots[i % SIZE].start == Starts(q)[i].start)
    && (forall i: nat | i < |Ends(q)| && |Ends(q)| <= i + SIZE :: q.slots[i % SIZE].end == Ends(q)[i].end)
  }

  // The worker holds the claim on index t.
  predicate HoldsClaim(s: Worker, t: nat) { (s.Claimed? || s.HalfRead?) && s.t == t }

  // Every index the worker has claimed is below b.
  predicate ClaimsBelow(q: Queue, w: nat, b: nat) {
    forall c | 0 <= c < |q.claimants| && q.claimants[c] == w :: c < b
  }

  predicate WorkerOk(q: Queue, w: nat)
    requires w < |q.workers|
  {
    match q.workers[w]
    case HasTail(t) => t <= q.tail && ClaimsBelow(q, w, t)
    case HasBoth(t, h, late) =>
      t <= q.tail && t <= h <= q.head && (late ==> q.done && h == q.head) && ClaimsBelow(q, w, t)
    case Claimed(t) => t < |q.claimants| && q.claimants[t] == w && t !in q.receipts
    case HalfRead(t, start, source, inTime) =>
      && t < |q.claimants| && q.claimants[t] == w && t !in q.receipts
      && t <= source < |Starts(q)| && start == Starts(q)[source].start && (inTime <==> source == t)
    case Exited(late, h) => q.done && h <= q.tail && (late ==> h == q.head) && ClaimsBelow(q, w, h)
    case Start => true
  }

  ghost predicate ReceiptOk(q: Queue, t: nat, r: Receipt) {
    && t < q.tail && t <= r.startSource < |Starts(q)| && Starts(q)[r.startSource].start == r.value.start
    && t <= r.endSource < |Ends(q)| && Ends(q)[r.endSource].end == r.value.end
    && (r.startInTime <==> r.startSource == t) && (r.endInTime <==> r.endSource == t)
  }

  // A claimed index has its receipt, or its claimant is about to write it.
  predicate ClaimOk(q: Queue, t: nat)
    requires t < |q.claimants|
  {
    q.claimants[t] < |q.workers| && (t in q.receipts || HoldsClaim(q.workers[q.claimants[t]], t))
  }

  ghost predicate Inv(q: Queue) {
    && q.tail <= q.head <= q.tail + SIZE
    && |q.claimants| == q.tail
    && ProducerOk(q) && SlotsOk(q)
    && (forall w: nat | w < |q.workers| :: WorkerOk(q, w))
    && (forall t: nat | t in q.receipts :: ReceiptOk(q, t, q.receipts[t]))
    && (forall t: nat | t < q.tail :: ClaimOk(q, t))
  }

  lemma ModDistinct(i: nat, h: nat)
    requires i < h < i + SIZE
    ensures i % SIZE != h % SIZE
  {
  }

  lemma SlotOfLast(t: nat, written: nat)
    requires t < written
    ensures LastIn(t, written) % SIZE == t % SIZE
    decreases written - t
  {
    if written > t + SIZE {
      SlotOfLast(t + SIZE, written);
      assert (t + SIZE) % SIZE == t % SIZE;
    }
  }

  lemma FillKeepsSlots(q: Queue, a: Action)
    requires Inv(q) && Enabled(q, a) && (a.FillStart? || a.FillEnd?)
    ensures SlotsOk(Apply(q, a))
  {
    var r, h := Apply(q, a), q.head;
    forall i: nat | i < |Starts(r)| && |Starts(r)| <= i + SIZE
      ensures r.slots[i % SIZE].start == Starts(r)[i].start
    {
      if i < h {
        ModDistinct(i, h);
        assert q.slots[i % SIZE].start == Starts(q)[i].start;
      }
    }
    forall i: nat | i < |Ends(r)| && |Ends(r)| <= i + SIZE
      ensures r.slots[i % SIZE].end == Ends(r)[i].end
    {
      if i < h {
        assert q.slots[i % SIZE].end == Ends(q)[i].end;
        if a.FillEnd? {
          ModDistinct(i, h);
        }
      }
    }
  }

  predicate IsProducerStep(a: Action) {
    a.LoadHeadToEnqueue? || a.SeeRoom? || a.FillStart? || a.FillEnd? || a.StoreHead? || a.SetDone?
  }

  // A step of the producer keeps the invariant.
  lemma ProducerKeeps(q: Queue, a: Action)
    requires Inv(q) && Enabled(q, a) && IsProducerStep(a)
    ensures Inv(Apply(q, a))
  {
    if a.FillStart? || a.FillEnd? {
      FillKeepsSlots(q, a);
    }
    forall w: nat | w < |Apply(q, a).workers|
      ensures WorkerOk(Apply(q, a), w)
    {
      ProducerKeepsWorker(q, a, w);
    }
    forall t: nat | t in Apply(q, a).receipts
      ensures ReceiptOk(Apply(q, a), t, Apply(q, a).receipts[t])
    {
      ProducerKeepsReceipt(q, a, t);
    }
    forall t: nat | t < Apply(q, a).tail
      ensures ClaimOk(Apply(q, a), t)
    {
      assert ClaimOk(q, t);
    }
  }

  lemma ProducerKeepsWorker(q: Queue, a: Action, w: nat)
    requires Inv(q) && Enabled(q, a) && IsProducerStep(a) && w < |q.workers|
    ensures w < |Apply(q, a).workers| && WorkerOk(Apply(q, a), w)
  {
    hide SlotsOk, ClaimOk, ReceiptOk, LastIn;
    assert WorkerOk(q, w);
    assert Starts(q) <= Starts(Apply(q, a)) && Ends(q) <= Ends(Apply(q, a));
  }

  lemma ProducerKeepsReceipt(q: Queue, a: Action, t: nat)
    requires Inv(q) && Enabled(q, a) && IsProducerStep(a) && t in q.receipts
    ensures t in Apply(q, a).receipts && ReceiptOk(Apply(q, a), t, Apply(q, a).receipts[t])
  {
    hide SlotsOk, ClaimOk, WorkerOk, LastIn;
    assert ReceiptOk(q, t, q.receipts[t]);
    assert Starts(q) <= Starts(Apply(q, a)) && Ends(q) <= Ends(Apply(q, a));
  }

  // What the two reads of a claimant return.
  lemma StartIsLast(q: Queue, t: nat)
    requires SlotsOk(q) && t < |Starts(q)|
    ensures var i := LastIn(t, |Starts(q)|); q.slots[t % SIZE].start == Starts(q)[i].start
  {
    var i := LastIn(t, |Starts(q)|);
    SlotOfLast(t, |Starts(q)|);
    assert q.slots[i % SIZE].start == Starts(q)[i].start;
  }

  lemma EndIsLast(q: Queue, t: nat)
    requires SlotsOk(q) && t < |Ends(q)|
    ensures var i := LastIn(t, |Ends(q)|); q.slots[t % SIZE].end == Ends(q)[i].end
  {
    var i := LastIn(t, |Ends(q)|);
    SlotOfLast(t, |Ends(q)|);
    assert q.slots[i % SIZE].end == Ends(q)[i].end;
  }

  lemma OtherWorkers(q: Queue, a: Action, v: nat)
    requires Inv(q) && Enabled(q, a) && !IsProducerStep(a) && v < |q.workers| && v != a.w
    ensures WorkerOk(Apply(q, a), v)
  {
    hide LastIn, SlotsOk, ReceiptOk, ClaimOk, ClaimsBelow;
    assert WorkerOk(q, a.w) && WorkerOk(q, v);
    var s := q.workers[v];
    if s.HasTail? || s.HasBoth? {
      ClaimsKept(q, a, v, s.t);
    } else if s.Exited? {
      ClaimsKept(q, a, v, s.h);
    }
  }

  // A worker only ever adds to its own claims.
  lemma ClaimsKept(q: Queue, a: Action, v: nat, b: nat)
    requires Enabled(q, a) && !IsProducerStep(a) && v != a.w && ClaimsBelow(q, v, b)
    ensures ClaimsBelow(Apply(q, a), v, b)
  {
    hide LastIn;
  }

  lemma OwnWorker(q: Queue, a: Action)
    requires Inv(q) && Enabled(q, a) && !IsProducerStep(a)
    ensures WorkerOk(Apply(q, a), a.w)
  {
    assert WorkerOk(q, a.w);
    if a.ReadStart? {
      StartIsLast(q, q.workers[a.w].t);
    } else if a.Claim? {
      assert forall t: nat | t in q.receipts :: ReceiptOk(q, t, q.receipts[t]);
    }
    hide LastIn, SlotsOk, ClaimOk;
  }

  lemma WorkerKeepsReceipts(q: Queue, a: Action, t: nat)
    requires Inv(q) && Enabled(q, a) && !IsProducerStep(a) && t in Apply(q, a).receipts
    ensures ReceiptOk(Apply(q, a), t, Apply(q, a).receipts[t])
  {
    if t in q.receipts {
      assert ReceiptOk(q, t, q.receipts[t]);
      KeptReceipt(q, a, t);
    } else {
      assert WorkerOk(q, a.w);
      EndIsLast(q, q.workers[a.w].t);
      hide LastIn, SlotsOk, ClaimOk;
    }
  }

  lemma KeptReceipt(q: Queue, a: Action, t: nat)
    requires Inv(q) && Enabled(q, a) && !IsProducerStep(a) && t in q.receipts
    ensures var r := Apply(q, a);
      r.receipts[t] == q.receipts[t] && Starts(r) == Starts(q) && Ends(r) == Ends(q) && r.tail >= q.tail
  {
    hide LastIn, SlotsOk, ClaimOk, ReceiptOk;
    assert WorkerOk(q, a.w);
  }

  lemma WorkerKeepsClaims(q: Queue, a: Action, t: nat)
    requires Inv(q) && Enabled(q, a) && !IsProducerStep(a) && t < Apply(q, a).tail
    ensures |Apply(q, a).claimants| == Apply(q, a).tail && ClaimOk(Apply(q, a), t)
  {
    hide LastIn;
    assert WorkerOk(q, a.w);
    if t < q.tail {
      assert ClaimOk(q, t);
    }
  }

  // So does a step of a worker.
  lemma WorkerKeeps(q: Queue, a: Action)
    requires Inv(q) && Enabled(q, a) && !IsProducerStep(a)
    ensures Inv(Apply(q, a))
  {
    hide LastIn, ReceiptOk, ClaimOk;
    var r := Apply(q, a);
    assert WorkerOk(q, a.w);
    forall v: nat | v < |r.workers|
      ensures WorkerOk(r, v)
    {
      if v == a.w {
        OwnWorker(q, a);
      } else {
        OtherWorkers(q, a, v);
      }
    }
    forall t: nat | t in r.receipts
      ensures ReceiptOk(r, t, r.receipts[t])
    {
      WorkerKeepsReceipts(q, a, t);
    }
    forall t: nat | t < r.tail
      ensures |r.claimants| == r.tail && ClaimOk(r, t)
    {
      WorkerKeepsClaims(q, a, t);
    }
  }

  // ---------- Whole runs ----------

  // The state after a run of steps, if each is possible in its turn.
  function After(q: Queue, acts: seq<Action>): Option<Queue>
    decreases |acts|
  {
    if acts == [] then Some(q) else
    var before, a := After(q, acts[..|acts| - 1]), acts[|acts| - 1];
    if before.Some? && Enabled(before.value, a) then Some(Apply(before.value, a)) else None
  }

  lemma OneMore(q: Queue, acts: seq<Action>, a: Action)
    requires After(q, acts).Some? && Enabled(After(q, acts).value, a)
    ensures After(q, acts + [a]) == Some(Apply(After(q, acts).value, a))
  {
    assert (acts + [a])[..|acts|] == acts;
  }

  lemma StepKeeps(q: Queue, a: Action)
    requires Inv(q) && Enabled(q, a)
    ensures Inv(Apply(q, a))
  {
    if IsProducerStep(a) {
      ProducerKeeps(q, a);
    } else {
      WorkerKeeps(q, a);
    }
  }

  lemma {:induction false} RunKeeps(q: Queue, acts: seq<Action>)
    requires Inv(q) && After(q, acts).Some?
    ensures Inv(After(q, acts).value)
    decreases |acts|
  {
    if acts != [] {
      RunKeeps(q, acts[..|acts| - 1]);
      StepKeeps(After(q, acts[..|acts| - 1]).value, acts[|acts| - 1]);
    }
  }

  lemma InitialOk(slots: seq<WorkChunk>, n: nat)
    requires |slots| == SIZE
    ensures Inv(Initial(slots, n))
  {
  }

  // In every interleaving: the queue never overflows or underflows; every index below tail has one
  // claimant, which has read it or is about to, and no index is held by two workers; each pointer read
  // in time is the one published under the claimed index and a late one is from a later chunk of the
  // same slot; and a worker leaves after done with everything claimed that it saw.
  lemma QueueSafety(slots: seq<WorkChunk>, n: nat, acts: seq<Action>)
    requires |slots| == SIZE && After(Initial(slots, n), acts).Some?
    ensures var q := After(Initial(slots, n), acts).value;
      && 0 <= q.head - q.tail <= SIZE
      && |q.published| == q.head && |q.claimants| == q.tail
      && (forall t: nat | t < q.tail :: ClaimOk(q, t))
      && (forall w, v, t: nat | 0 <= w < |q.workers| && 0 <= v < |q.workers| && HoldsClaim(q.workers[w], t)
            && HoldsClaim(q.workers[v], t) :: w == v)
      && (forall t: nat | t in q.receipts :: ReceiptOk(q, t, q.receipts[t]))
      && (forall w | 0 <= w < |q.workers| && q.workers[w].Exited? ::
            && q.done && q.producer.Idle? && q.workers[w].h <= q.tail
            && (q.workers[w].late ==> q.workers[w].h == q.head))
  {
    InitialOk(slots, n);
    RunKeeps(Initial(slots, n), acts);
    var q := After(Initial(slots, n), acts).value;
    forall w, v, t: nat | 0 <= w < |q.workers| && 0 <= v < |q.workers|
      && HoldsClaim(q.workers[w], t) && HoldsClaim(q.workers[v], t)
      ensures w == v
    {
      assert WorkerOk(q, w) && WorkerOk(q, v);
    }
    forall w | 0 <= w < |q.workers| && q.workers[w].Exited?
      ensures q.done && q.producer.Idle? && q.workers[w].h <= q.tail && (q.workers[w].late ==> q.workers[w].h == q.head)
    {
      assert WorkerOk(q, w);
    }
  }

  // ---------- When the queue is drained ----------

  ghost predicate AllExited(q: Queue) {
    |q.workers| > 0 && forall w | 0 <= w < |q.workers| :: q.workers[w].Exited?
  }

  // The head that some worker loaded last was the final one.
  ghost predicate FinalHeadSeen(q: Queue) {
    exists w | 0 <= w < |q.workers| :: q.workers[w].Exited? && q.workers[w].h == q.head
  }

  // When all workers have left, the queue is drained if and only if one of them had loaded the final
  // head; loading it after done is one way to do so.
  lemma DrainedExactly(slots: seq<WorkChunk>, n: nat, acts: seq<Action>)
    requires |slots| == SIZE && After(Initial(slots, n), acts).Some? && AllExited(After(Initial(slots, n), acts).value)
    ensures var q := After(Initial(slots, n), acts).value; q.tail == q.head <==> FinalHeadSeen(q)
    ensures var q := After(Initial(slots, n), acts).value;
      (exists w | 0 <= w < |q.workers| :: q.workers[w].Exited? && q.workers[w].late) ==> FinalHeadSeen(q)
  {
    InitialOk(slots, n);
    RunKeeps(Initial(slots, n), acts);
    hide After, SlotsOk, ReceiptOk;
    var q := After(Initial(slots, n), acts).value;
    forall w: nat | w < |q.workers|
      ensures q.workers[w].h <= q.tail && (q.workers[w].late ==> q.workers[w].h == q.head)
    {
      assert WorkerOk(q, w);
    }
    if q.tail == q.head {
      var w := if q.tail == 0 then 0 else q.claimants[q.tail - 1];
      if q.tail > 0 {
        assert ClaimOk(q, q.tail - 1);
      }
      assert WorkerOk(q, w);
      assert q.workers[w].h == q.head;
    }
  }

  // History only grows: chunks keep their index, claims are made in order and never change
  // hands, and a receipt is written once.
  lemma HistoryGrows(q: Queue, a: Action)
    requires Inv(q) && Enabled(q, a)
    ensures var r := Apply(q, a);
      && q.published <= r.published && q.claimants <= r.claimants
      && (forall t: nat | t in q.receipts :: t in r.receipts && r.receipts[t] == q.receipts[t])
      && (forall t: nat | t in r.receipts && t !in q.receipts ::
            a.ReadEnd? && HoldsClaim(q.workers[a.w], t) && t < |r.claimants| && r.claimants[t] == a.w)
  {
    if a.ReadEnd? {
      assert WorkerOk(q, a.w);
    }
  }

  // A worker that holds a claim can always go on reading its slot.
  lemma ClaimantCanRead(q: Queue, w: nat)
    requires Inv(q) && w < |q.workers|
    ensures q.workers[w].Claimed? ==> Enabled(q, ReadStart(w))
    ensures q.workers[w].HalfRead? ==> Enabled(q, ReadEnd(w))
  {
    assert WorkerOk(q, w);
  }

  // ---------- What does not hold ----------

  // One whole spmc_enqueue by a producer that finds room.
  lemma Enqueue(q0: Queue, acts: seq<Action>, chunk: WorkChunk) returns (more: seq<Action>)
    requires After(q0, acts).Some? && |After(q0, acts).value.slots| == SIZE
    requires var q := After(q0, acts).value;
      q.producer.Idle? && !q.done && q.head - q.tail < SIZE
    ensures After(q0, more).Some?
    ensures var q := After(q0, acts).value;
      After(q0, more).value == q.(slots := q.slots[q.head % SIZE := chunk], head := q.head + 1,
        published := q.published + [chunk])
  {
    hide After;
    var q := After(q0, acts).value;
    OneMore(q0, acts, LoadHeadToEnqueue(chunk));
    more := acts + [LoadHeadToEnqueue(chunk)];
    OneMore(q0, more, SeeRoom);
    more := more + [SeeRoom];
    OneMore(q0, more, FillStart);
    more := more + [FillStart];
    OneMore(q0, more, FillEnd);
    more := more + [FillEnd];
    OneMore(q0, more, StoreHead);
    more := more + [StoreHead];
  }

  // Head loaded before done was set: the only worker leaves while a chunk is still queued.
  lemma EarlyExit(slots: seq<WorkChunk>, chunk: WorkChunk) returns (acts: seq<Action>)
    requires |slots| == SIZE
    ensures After(Initial(slots, 1), acts).Some?
    ensures var q := After(Initial(slots, 1), acts).value;
      q.workers == [Exited(false, 0)] && q.done && q.producer.Idle? && q.tail == 0 && q.head == 1
  {
    var q0 := Initial(slots, 1);
    assert After(q0, []) == Some(q0);
    hide After;
    OneMore(q0, [], LoadTail(0));
    OneMore(q0, [] + [LoadTail(0)], LoadHead(0));
    acts := Enqueue(q0, [] + [LoadTail(0)] + [LoadHead(0)], chunk);
    OneMore(q0, acts, SetDone);
    OneMore(q0, acts + [SetDone], FindEmpty(0));
    acts := acts + [SetDone] + [FindEmpty(0)];
  }

  // The producer can fill the queue up while a claimed slot waits to be read.
  lemma {:induction false} FillUp(q0: Queue, acts: seq<Action>, chunk: WorkChunk, n: nat) returns (more: seq<Action>)
    requires After(q0, acts).Some?
    requires var q := After(q0, acts).value;
      Inv(q) && q.producer.Idle? && !q.done && q.head + n <= q.tail + SIZE
    ensures After(q0, more).Some?
    ensures var q, r := After(q0, acts).value, After(q0, more).value;
      && Inv(r) && r.producer.Idle? && !r.done && r.workers == q.workers && r.tail == q.tail && r.head == q.head + n
      && r.receipts == q.receipts && |r.published| == |q.published| + n && q.published <= r.published
      && (forall i | |q.published| <= i < |r.published| :: r.published[i] == chunk)
    decreases n
  {
    hide After;
    if n == 0 {
      more := acts;
    } else {
      var mid := FillUp(q0, acts, chunk, n - 1);
      more := Enqueue(q0, mid, chunk);
      EnqueueKeeps(After(q0, mid).value, chunk);
    }
  }

  lemma EnqueueKeeps(q: Queue, chunk: WorkChunk)
    requires Inv(q) && q.producer.Idle? && !q.done && q.head - q.tail < SIZE
    ensures Inv(q.(slots := q.slots[q.head % SIZE := chunk], head := q.head + 1, published := q.published + [chunk]))
  {
    StepKeeps(q, LoadHeadToEnqueue(chunk));
    var q1 := Apply(q, LoadHeadToEnqueue(chunk));
    StepKeeps(q1, SeeRoom);
    var q2 := Apply(q1, SeeRoom);
    StepKeeps(q2, FillStart);
    var q3 := Apply(q2, FillStart);
    StepKeeps(q3, FillEnd);
    var q4 := Apply(q3, FillEnd);
    StepKeeps(q4, StoreHead);
    assert q4.slots == q.slots[q.head % SIZE := chunk];
    assert Apply(q4, StoreHead) ==
      q.(slots := q.slots[q.head % SIZE := chunk], head := q.head + 1, published := q.published + [chunk]);
  }

  // One chunk is published and claimed.
  lemma ClaimFirst(slots: seq<WorkChunk>, first: WorkChunk) returns (acts: seq<Action>)
    requires |slots| == SIZE
    ensures After(Initial(slots, 1), acts).Some?
    ensures var q := After(Initial(slots, 1), acts).value;
      && Inv(q) && q.producer.Idle? && !q.done && q.head == q.tail == 1 && q.workers == [Claimed(0)]
      && q.published == [first] && q.receipts == map[]
  {
    var q0 := Initial(slots, 1);
    assert After(q0, []) == Some(q0);
    hide After;
    InitialOk(slots, 1);
    acts := Enqueue(q0, [], first);
    EnqueueKeeps(q0, first);
    hide Inv;
    var q := After(q0, acts).value;
    OneMore(q0, acts, LoadTail(0));
    StepKeeps(q, LoadTail(0));
    acts, q := acts + [LoadTail(0)], Apply(q, LoadTail(0));
    OneMore(q0, acts, LoadHead(0));
    StepKeeps(q, LoadHead(0));
    acts, q := acts + [LoadHead(0)], Apply(q, LoadHead(0));
    OneMore(q0, acts, Claim(0));
    StepKeeps(q, Claim(0));
    acts := acts + [Claim(0)];
  }

  // The only worker has read the start of the first slot.
  predicate IsHalfway(q: Queue, start: nat) {
    |q.workers| == 1 && q.workers[0].HalfRead? && q.workers[0].t == 0 && q.workers[0].start == start
  }

  // The worker reads the start of its slot, and the end.
  lemma ReadFirst(q0: Queue, acts: seq<Action>) returns (more: seq<Action>)
    requires After(q0, acts).Some? && Inv(After(q0, acts).value) && After(q0, acts).value.workers == [Claimed(0)]
    ensures After(q0, more).Some?
    ensures var q, r := After(q0, acts).value, After(q0, more).value;
      && Inv(r) && r == q.(workers := r.workers) && IsHalfway(r, q.slots[0].start)
  {
    hide After, LastIn;
    var q := After(q0, acts).value;
    ClaimantCanRead(q, 0);
    OneMore(q0, acts, ReadStart(0));
    StepKeeps(q, ReadStart(0));
    more := acts + [ReadStart(0)];
  }

  lemma ReadSecond(q0: Queue, acts: seq<Action>, start: nat) returns (more: seq<Action>)
    requires After(q0, acts).Some? && Inv(After(q0, acts).value) && IsHalfway(After(q0, acts).value, start)
    ensures After(q0, more).Some?
    ensures var q, r := After(q0, acts).value, After(q0, more).value;
      && r.published == q.published && 0 in r.receipts
      && r.receipts[0].value == Splitter.Chunk(start, q.slots[0].end)
  {
    hide After, LastIn;
    var q := After(q0, acts).value;
    ClaimantCanRead(q, 0);
    OneMore(q0, acts, ReadEnd(0));
    more := acts + [ReadEnd(0)];
  }

  // The first slot once the queue was filled up again.
  lemma Refilled(q: Queue, other: WorkChunk)
    requires SlotsOk(q) && q.producer.Idle? && |q.published| == SIZE + 1 && q.published[SIZE] == other
    ensures q.slots[0] == other
  {
    assert q.slots[SIZE % SIZE].start == Starts(q)[SIZE].start;
    assert q.slots[SIZE % SIZE].end == Ends(q)[SIZE].end;
  }

  // A claimant that stalls reads another chunk: the slot is read after the claim is published.
  lemma LateRead(slots: seq<WorkChunk>, first: WorkChunk, other: WorkChunk) returns (acts: seq<Action>)
    requires |slots| == SIZE
    ensures After(Initial(slots, 1), acts).Some?
    ensures var q := After(Initial(slots, 1), acts).value;
      |q.published| > 0 && q.published[0] == first && 0 in q.receipts && q.receipts[0].value == other
  {
    hide After, LastIn;
    var q0 := Initial(slots, 1);
    acts := ClaimFirst(slots, first);
    acts := FillUp(q0, acts, other, SIZE);
    Refilled(After(q0, acts).value, other);
    acts := ReadFirst(q0, acts);
    acts := ReadSecond(q0, acts, other.start);
  }

  // One that stalls between the two pointers mixes two chunks.
  lemma MixedRead(slots: seq<WorkChunk>, first: WorkChunk, other: WorkChunk) returns (acts: seq<Action>)
    requires |slots| == SIZE
    ensures After(Initial(slots, 1), acts).Some?
    ensures var q := After(Initial(slots, 1), acts).value;
      && |q.published| > 0 && q.published[0] == first
      && 0 in q.receipts && q.receipts[0].value == Splitter.Chunk(first.start, other.end)
  {
    hide After, LastIn;
    var q0 := Initial(slots, 1);
    acts := ClaimFirst(slots, first);
    var q := After(q0, acts).value;
    assert q.slots[0 % SIZE].start == Starts(q)[0].start;
    acts := ReadFirst(q0, acts);
    acts := FillUp(q0, acts, other, SIZE);
    Refilled(After(q0, acts).value, other);
    acts := ReadSecond(q0, acts, first.start);
  }
}
