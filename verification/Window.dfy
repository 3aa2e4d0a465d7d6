/** ip_map.c and anomaly.c: the ring of request times kept per address, and the burst test that
    counts in it. */
module Window {

  const SLOTS := 128
  const WORD := 0x1_0000_0000
  const DEFAULT_BURST := 300

  // ---------- Specification over the history of pushes ----------

  // The last 128 times.
  function Last(h: seq<int>): (r: seq<int>)
    ensures |r| <= SLOTS
  {
    if |h| <= SLOTS then h else h[|h| - SLOTS..]
  }

  function Count(s: seq<int>, since: int): (r: nat)
    ensures r <= |s|
  {
    if s == [] then 0 else Count(s[..|s| - 1], since) + if s[|s| - 1] >= since then 1 else 0
  }

  lemma {:induction false} CountConcat(a: seq<int>, b: seq<int>, since: int)
    ensures Count(a + b, since) == Count(a, since) + Count(b, since)
    decreases |b|
  {
    if b == [] {
      assert a + b == a;
    } else {
      assert (a + b)[..|a + b| - 1] == a + b[..|b| - 1];
      CountConcat(a, b[..|b| - 1], since);
    }
  }

  // ---------- The ring ----------

  // The 32-bit head after n pushes, its increment, and the slot it points at.
  function Head(n: nat): nat { n % WORD }

  function Increment(head: nat): nat { (head + 1) % WORD }

  function SlotOf(n: nat): (r: nat)
    ensures r < SLOTS
  {
    n % SLOTS
  }

  // A head that has wrapped still points at the right slot.
  lemma WrappedSlot(n: nat)
    ensures SlotOf(Head(n)) == SlotOf(n)
  {
    var q, r := n / WORD, n % WORD;
    var a, b := r / SLOTS, r % SLOTS;
    assert n == SLOTS * (33554432 * q + a) + b;
    Remainder(33554432 * q + a, b);
  }

  lemma Remainder(k: nat, b: nat)
    requires b < SLOTS
    ensures SlotOf(SLOTS * k + b) == b
  {
  }

  lemma WrappedNext(n: nat)
    ensures Increment(Head(n)) == Head(n + 1)
  {
  }

  // The ring holds the times of h: n % 128 is where the next one goes.
  predicate Holds(times: seq<int>, h: seq<int>) {
    && |times| == SLOTS
    && var n, r := |h|, SlotOf(|h|);
       if n < SLOTS then times[..n] == h
       else times[..r] == h[n - r..] && times[r..] == h[n - SLOTS..n - r]
  }

  lemma HoldsPush(times: seq<int>, h: seq<int>, ts: int)
    requires Holds(times, h)
    ensures Holds(times[SlotOf(|h|) := ts], h + [ts])
  {
    var n, r := |h|, SlotOf(|h|);
    var t := times[r := ts];
    if n < SLOTS {
      assert t[..n + 1] == times[..n] + [ts];
      if n + 1 == SLOTS {
        assert t[0..] == t[..n + 1];
        assert (h + [ts])[0..n + 1] == h + [ts];
      }
    } else if r + 1 < SLOTS {
      assert SlotOf(n + 1) == r + 1;
      PushInside(times, h, ts, r);
    } else {
      assert SlotOf(n + 1) == 0;
      PushAtEnd(times, h, ts, r);
    }
  }

  lemma PushInside(times: seq<int>, h: seq<int>, ts: int, r: nat)
    requires |times| == SLOTS <= |h| && r + 1 < SLOTS
    requires times[..r] == h[|h| - r..] && times[r..] == h[|h| - SLOTS..|h| - r]
    ensures var t, h', m := times[r := ts], h + [ts], |h| + 1;
      t[..r + 1] == h'[m - (r + 1)..] && t[r + 1..] == h'[m - SLOTS..m - (r + 1)]
  {
    var t, h', n := times[r := ts], h + [ts], |h|;
    assert t[..r + 1] == times[..r] + [ts];
    assert h'[n - r..] == h[n - r..] + [ts];
    assert t[r + 1..] == times[r..][1..];
    assert h'[n + 1 - SLOTS..n - r] == h[n - SLOTS..n - r][1..];
  }

  lemma PushAtEnd(times: seq<int>, h: seq<int>, ts: int, r: nat)
    requires |times| == SLOTS <= |h| && r + 1 == SLOTS && times[..r] == h[|h| - r..]
    ensures var t, h', m := times[r := ts], h + [ts], |h| + 1;
      t[..0] == h'[m..] && t[0..] == h'[m - SLOTS..m]
  {
    var t, h', n := times[r := ts], h + [ts], |h|;
    assert t == times[..r] + [ts];
    assert h'[n - r..n + 1] == h[n - r..] + [ts];
  }

  lemma CountHeld(times: seq<int>, h: seq<int>, since: int)
    requires Holds(times, h)
    ensures Count(times[..if |h| < SLOTS then |h| else SLOTS], since) == Count(Last(h), since)
  {
    hide Count;
    var n, r := |h|, SlotOf(|h|);
    if n >= SLOTS {
      assert times[..SLOTS] == times[..r] + times[r..];
      CountConcat(times[..r], times[r..], since);
      assert Last(h) == h[n - SLOTS..n - r] + h[n - r..];
      CountConcat(h[n - SLOTS..n - r], h[n - r..], since);
    }
  }

  class SlidingWindow {
    const times: array<int>
    var head: nat
    var count: nat
    ghost var pushed: seq<int>

    ghost predicate Valid()
      reads this, times
    {
      && times.Length == SLOTS && head == Head(|pushed|)
      && count == (if |pushed| < SLOTS then |pushed| else SLOTS) && Holds(times[..], pushed)
    }

    constructor ()
      ensures Valid() && fresh(times) && pushed == []
    {
      times := new int[SLOTS](_ => 0);
      head, count, pushed := 0, 0, [];
    }

    // window_push
    method Push(ts: int)
      requires Valid()
      modifies this, times
      ensures Valid() && pushed == old(pushed) + [ts]
    {
      hide Holds, Head, Increment, SlotOf;
      ghost var before := times[..];
      var current := head;
      head := Increment(head);
      WrappedNext(|pushed|);
      var slot := SlotOf(current);
      WrappedSlot(|pushed|);
      HoldsPush(times[..], pushed, ts);
      times[slot] := ts;
      assert times[..] == before[slot := ts];
      if count < SLOTS {
        count := count + 1;
      }
      pushed := pushed + [ts];
    }

    // window_count_since
    method CountSince(since: int) returns (cnt: nat)
      requires Valid()
      ensures cnt == Count(Last(pushed), since) <= SLOTS
    {
      cnt := 0;
      var total := if count < SLOTS then count else SLOTS;
      var i := 0;
      while i < total
        invariant i <= total <= SLOTS && cnt == Count(times[..i], since)
      {
        assert times[..i + 1][..i] == times[..i];
        if times[i] >= since {
          cnt := cnt + 1;
        }
        i := i + 1;
      }
      CountHeld(times[..], pushed, since);
      assert times[..][..total] == times[..total];
    }

    // The burst test of anomaly_check.
    method BurstFires(ts: int, threshold: nat) returns (fires: bool)
      requires Valid()
      ensures fires <==> Burst(pushed, ts, threshold)
    {
      var rps := CountSince(ts - 1);
      fires := rps >= threshold;
    }
  }

  // ---------- The burst alert ----------

  predicate Burst(h: seq<int>, ts: int, threshold: nat) { Count(Last(h), ts - 1) >= threshold }

  lemma {:induction false} CountEqual(n: nat, ts: int)
    ensures Count(seq(n, _ => ts), ts - 1) == n
  {
    if n > 0 {
      assert seq(n, _ => ts)[..n - 1] == seq(n - 1, _ => ts);
      CountEqual(n - 1, ts);
    }
  }

  ghost predicate CanFire(threshold: nat) { exists h: seq<int>, ts: int :: Burst(h, ts, threshold) }

  // Some traffic fires the alert if and only if its threshold is at most the size of the ring.
  lemma FiresExactly(threshold: nat)
    ensures CanFire(threshold) <==> threshold <= SLOTS
  {
    if threshold <= SLOTS {
      var h := seq(threshold, _ => 0);
      CountEqual(threshold, 0);
      assert Burst(h, 0, threshold);
    }
  }

  lemma DefaultNeverFires(h: seq<int>, ts: int)
    ensures !Burst(h, ts, DEFAULT_BURST)
  {
  }
}
