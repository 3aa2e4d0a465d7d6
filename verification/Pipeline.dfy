/** main.c end to end: the main thread cuts the file and enqueues the chunks, the workers claim them
    and walk their lines. */
module Pipeline {
  import opened Splitter
  import opened SpmcQueue

  // The lines of what was received under the first n indices, in the order of the claims.
  function ReceivedLines(file: string, q: Queue, n: nat): seq<string>
    requires forall t: nat | t < n :: Received(file, q, t)
  {
    if n == 0 then []
    else
      assert Received(file, q, n - 1);
      var c := q.receipts[n - 1].value;
      ReceivedLines(file, q, n - 1) + Lines(file[c.start..c.end])
  }

  predicate Received(file: string, q: Queue, t: nat) {
    t in q.receipts && q.receipts[t].value.start <= q.receipts[t].value.end <= |file|
  }

  // Every read was made before the pointer was written again.
  ghost predicate AllInTime(q: Queue) {
    forall t: nat | t in q.receipts :: q.receipts[t].startInTime && q.receipts[t].endInTime
  }

  // Every published chunk was received as it was published.
  ghost predicate AllReceived(q: Queue) {
    forall t: nat | t < |q.published| :: t in q.receipts && q.receipts[t].value == q.published[t]
  }

  ghost predicate Increasing(chunks: seq<Chunk>) {
    forall i, j | 0 <= i < j < |chunks| :: chunks[i].start < chunks[j].start && chunks[i].end < chunks[j].end
  }

  lemma {:induction false} CoversIncreasing(file: string, chunks: seq<Chunk>, to: nat)
    requires Covers(file, chunks, 0, to)
    ensures Increasing(chunks) && (forall k | 0 <= k < |chunks| :: chunks[k].start < chunks[k].end <= to)
    decreases |chunks|
  {
    if chunks != [] {
      var n := |chunks| - 1;
      CoversIncreasing(file, chunks[..n], chunks[n].start);
      assert forall k | 0 <= k < n :: chunks[..n][k] == chunks[k];
    }
  }

  // When the chunks of a file were enqueued and all workers have left: every chunk was received as it was
  // published if and only if some worker had loaded the final head and every read was in time.
  lemma ReceivedExactly(file: string, chunks: seq<Chunk>, slots: seq<Chunk>, n: nat, acts: seq<Action>)
    requires Covers(file, chunks, 0, |file|) && |slots| == SIZE && After(Initial(slots, n), acts).Some?
    requires var q := After(Initial(slots, n), acts).value; q.published == chunks && AllExited(q)
    ensures var q := After(Initial(slots, n), acts).value; AllReceived(q) <==> FinalHeadSeen(q) && AllInTime(q)
  {
    hide After, Covers;
    CoversIncreasing(file, chunks, |file|);
    QueueSafety(slots, n, acts);
    DrainedExactly(slots, n, acts);
    var q := After(Initial(slots, n), acts).value;
    assert q.workers[0].Exited?;
    hide FinalHeadSeen;
    if AllReceived(q) {
      ReceivedDrains(q);
      forall t: nat | t in q.receipts
        ensures q.receipts[t].startInTime && q.receipts[t].endInTime
      {
        assert ReceiptOk(q, t, q.receipts[t]);
      }
    }
    if q.tail == q.head && AllInTime(q) {
      forall t: nat | t < |q.published|
        ensures t in q.receipts && q.receipts[t].value == q.published[t]
      {
        assert ClaimOk(q, t);
        assert ReceiptOk(q, t, q.receipts[t]);
      }
    }
  }

  lemma ReceivedDrains(q: Queue)
    requires AllReceived(q) && |q.published| == q.head && q.tail <= q.head
    requires forall t: nat | t in q.receipts :: ReceiptOk(q, t, q.receipts[t])
    ensures q.tail == q.head
  {
    if q.head > 0 {
      assert q.head - 1 in q.receipts;
    }
  }

  lemma {:induction false} ReceivedAre(file: string, q: Queue, chunks: seq<Chunk>, to: nat)
    requires Covers(file, chunks, 0, to) && to <= |file|
    requires forall t: nat | t < |chunks| :: t in q.receipts && q.receipts[t].value == chunks[t]
    ensures forall t: nat | t < |chunks| :: Received(file, q, t)
    ensures ReceivedLines(file, q, |chunks|) == LinesOf(file, chunks, 0, to)
    decreases |chunks|
  {
    hide Lines;
    if chunks != [] {
      var n := |chunks| - 1;
      CoversOrdered(file, chunks[..n], 0, chunks[n].start);
      ReceivedAre(file, q, chunks[..n], chunks[n].start);
    }
  }

  // The lines the workers walk are then the lines of the file, whatever the interleaving.
  lemma EveryLineWalked(file: string, chunks: seq<Chunk>, slots: seq<Chunk>, n: nat, acts: seq<Action>)
    requires Covers(file, chunks, 0, |file|) && |slots| == SIZE && After(Initial(slots, n), acts).Some?
    requires var q := After(Initial(slots, n), acts).value;
      q.published == chunks && AllExited(q) && FinalHeadSeen(q) && AllInTime(q)
    ensures var q := After(Initial(slots, n), acts).value;
      && (forall t: nat | t < |chunks| :: Received(file, q, t))
      && ReceivedLines(file, q, |chunks|) == Lines(file)
  {
    hide After, AllExited, FinalHeadSeen, AllInTime, Lines, Covers;
    ReceivedExactly(file, chunks, slots, n, acts);
    ReceivedAre(file, After(Initial(slots, n), acts).value, chunks, |file|);
    SplitIsLossless(file, chunks);
  }
}
