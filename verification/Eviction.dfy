/** ip_map.c: ipmap_evict_lru on a map that nobody else uses meanwhile. */
module Eviction {

  const READY := 2

  datatype Record = Record(
    ip: string, state: nat, version: nat, stage: nat, banned: bool, banUntil: int, lastAlert: int,
    firstSeen: int, lastSeen: int, total: int, err4: int, err5: int, sqli: int, slow: int, lru: nat,
    hits: seq<nat>, window: seq<int>)

  datatype Candidate = Candidate(index: nat, lru: nat)

  // ---------- Specification ----------

  predicate Eligible(r: Record, now: int) {
    r.state == READY && r.stage < 2 && !r.banned && now - r.lastSeen >= 300
  }

  function EligibleSet(slots: seq<Record>, now: int): set<nat> {
    set i: nat | i < |slots| && Eligible(slots[i], now)
  }

  function Cleared(r: Record): Record {
    Record("", 0, (r.version + 1) % 0x1_0000_0000, 0, false, 0, 0, 0, 0, 0, 0, 0, 0, 0, 0, [], [])
  }

  function ReadyCount(slots: seq<Record>): nat {
    if slots == [] then 0 else ReadyCount(slots[..|slots| - 1]) + if slots[|slots| - 1].state == READY then 1 else 0
  }

  // Exactly the records of `gone` are cleared, they are as many eligible ones as asked for, and the
  // eligible ones that stay were used no earlier.
  ghost predicate Evicts(before: seq<Record>, after: seq<Record>, gone: set<nat>, count: nat, now: int) {
    && |after| == |before| && gone <= EligibleSet(before, now)
    && |gone| == (if count < |EligibleSet(before, now)| then count else |EligibleSet(before, now)|)
    && (forall i: nat | i < |before| :: after[i] == if i in gone then Cleared(before[i]) else before[i])
    && (forall i, j | i in gone && j in EligibleSet(before, now) && j !in gone :: before[i].lru <= before[j].lru)
  }

  // ---------- Candidates ----------

  ghost predicate Collected(cands: seq<Candidate>, slots: seq<Record>, now: int, n: nat) {
    && n <= |slots|
    && (forall k | 0 <= k < |cands| :: IsCandidate(cands[k], slots, now))
    && (forall j, k | 0 <= j < k < |cands| :: cands[j].index != cands[k].index)
    && (forall k | 0 <= k < |cands| :: cands[k].index < n)
    && (forall i: nat | i < n && Eligible(slots[i], now) :: Candidate(i, slots[i].lru) in cands)
  }

  predicate IsCandidate(c: Candidate, slots: seq<Record>, now: int) {
    c.index < |slots| && Eligible(slots[c.index], now) && c.lru == slots[c.index].lru
  }

  predicate SortedByLru(cands: seq<Candidate>) {
    forall j, k | 0 <= j < k < |cands| :: cands[j].lru <= cands[k].lru
  }

  function Indices(cands: seq<Candidate>): set<nat> { set c | c in cands :: c.index }

  lemma {:induction false} IndicesSize(cands: seq<Candidate>)
    requires forall j, k | 0 <= j < k < |cands| :: cands[j].index != cands[k].index
    ensures |Indices(cands)| == |cands|
  {
    if cands == [] {
      assert Indices(cands) == {};
    } else {
      var n := |cands| - 1;
      IndicesSize(cands[..n]);
      assert cands == cands[..n] + [cands[n]];
      assert Indices(cands) == Indices(cands[..n]) + {cands[n].index};
    }
  }

  lemma AllCollected(cands: seq<Candidate>, slots: seq<Record>, now: int)
    requires Collected(cands, slots, now, |slots|)
    ensures Indices(cands) == EligibleSet(slots, now) && |EligibleSet(slots, now)| == |cands|
  {
    IndicesSize(cands);
    forall i | i in EligibleSet(slots, now)
      ensures i in Indices(cands)
    {
      assert Candidate(i, slots[i].lru) in cands;
    }
  }

  // A permutation of the candidates has collected the same.
  lemma Reordered(a: seq<Candidate>, b: seq<Candidate>, slots: seq<Record>, now: int, n: nat)
    requires Collected(a, slots, now, n) && multiset(a) == multiset(b)
    ensures Collected(b, slots, now, n)
  {
    forall c
      ensures c in a <==> c in b
    {
      assert c in multiset(a) <==> c in multiset(b);
    }
    forall k | 0 <= k < |b|
      ensures IsCandidate(b[k], slots, now) && b[k].index < n
    {
      assert b[k] in a;
    }
    forall j, k | 0 <= j < k < |b|
      ensures b[j].index != b[k].index
    {
      if b[j].index == b[k].index {
        assert b[j] in a && b[k] in a;
        assert b[j] == b[k];
        Twice(b, j, k);
        OnceEach(a, b[j]);
        assert false;
      }
    }
  }

  lemma Twice(b: seq<Candidate>, j: nat, k: nat)
    requires j < k < |b| && b[j] == b[k]
    ensures multiset(b)[b[j]] >= 2
  {
    assert b == b[..k] + [b[k]] + b[k + 1..];
    assert b[j] in b[..k];
  }

  lemma {:induction false} OnceEach(a: seq<Candidate>, c: Candidate)
    requires forall j, k | 0 <= j < k < |a| :: a[j].index != a[k].index
    ensures multiset(a)[c] <= 1
  {
    if a != [] {
      var n := |a| - 1;
      OnceEach(a[..n], c);
      assert a == a[..n] + [a[n]];
      assert forall j | 0 <= j < n :: a[..n][j].index != a[n].index;
      assert c in a[..n] ==> c != a[n];
    }
  }

  method Insert(s: seq<Candidate>, c: Candidate) returns (r: seq<Candidate>)
    requires SortedByLru(s)
    ensures SortedByLru(r) && multiset(r) == multiset(s) + multiset{c}
  {
    var i := |s|;
    while i > 0 && s[i - 1].lru > c.lru
      invariant 0 <= i <= |s| && forall k | i <= k < |s| :: s[k].lru > c.lru
    {
      i := i - 1;
    }
    InsertSorts(s, i, c);
    hide SortedByLru;
    assert s == s[..i] + s[i..];
    r := s[..i] + [c] + s[i..];
  }

  lemma InsertSorts(s: seq<Candidate>, i: nat, c: Candidate)
    requires SortedByLru(s) && i <= |s| && (i == 0 || s[i - 1].lru <= c.lru) &&
      forall k | i <= k < |s| :: s[k].lru > c.lru
    ensures SortedByLru(s[..i] + [c] + s[i..])
  {
    forall j, k | 0 <= j < k < |s| + 1
      ensures (s[..i] + [c] + s[i..])[j].lru <= (s[..i] + [c] + s[i..])[k].lru
    {
      Inserted(s, i, c, j);
      Inserted(s, i, c, k);
    }
  }

  lemma Inserted(s: seq<Candidate>, i: nat, c: Candidate, k: nat)
    requires i <= |s| && k <= |s|
    ensures (s[..i] + [c] + s[i..])[k] == if k < i then s[k] else if k == i then c else s[k - 1]
  {
  }

  // Stands for qsort: nothing more is used of it than that it sorts.
  method Sort(cands: seq<Candidate>) returns (r: seq<Candidate>)
    ensures SortedByLru(r) && multiset(r) == multiset(cands)
  {
    hide SortedByLru;
    r := [];
    NothingSorted();
    for n := 0 to |cands|
      invariant SortedByLru(r) && multiset(r) == multiset(cands[..n])
    {
      assert cands[..n + 1] == cands[..n] + [cands[n]];
      r := Insert(r, cands[n]);
    }
    assert cands[..|cands|] == cands;
  }

  lemma NothingSorted()
    ensures SortedByLru([])
  {
  }

  // ---------- The map ----------

  class AddressMap {
    var slots: seq<Record>
    var size: nat

    ghost predicate Valid()
      reads this
    {
      size == ReadyCount(slots)
    }

    method Collect(now: int) returns (cands: seq<Candidate>)
      ensures Collected(cands, slots, now, |slots|)
    {
      cands := [];
      for i := 0 to |slots|
        invariant Collected(cands, slots, now, i)
      {
        var rec := slots[i];
        if rec.state != READY {
          continue;
        }
        if rec.stage >= 2 {
          continue;
        }
        if rec.banned {
          continue;
        }
        if now - rec.lastSeen < 300 {
          continue;
        }
        cands := cands + [Candidate(i, rec.lru)];
      }
    }

    // ipmap_evict_lru
    method EvictLru(count: nat, now: int) returns (evicted: nat, ghost gone: set<nat>)
      requires Valid()
      modifies this
      ensures Valid() && Evicts(old(slots), slots, gone, count, now)
      ensures evicted == |gone| && size == old(size) - evicted
    {
      hide Eligible, ReadyCount, Cleared;
      evicted, gone := 0, {};
      if count == 0 {
        return;
      }
      if size == 0 {
        NoneReady(slots, now);
        return;
      }
      var cands := Collect(now);
      AllCollected(cands, slots, now);
      if |cands| == 0 {
        return;
      }
      var sorted := Sort(cands);
      Reordered(cands, sorted, slots, now, |slots|);
      AllCollected(sorted, slots, now);
      var target := if |sorted| < count then |sorted| else count;
      var i := 0;
      while i < target
        invariant i <= target && evicted == i && size == old(size) - i && Valid()
        invariant ClearedAll(old(slots), slots, Indices(sorted[..i]))
      {
        ghost var before := slots;
        ClearNext(old(slots), slots, sorted, i, now);
        var k := sorted[i].index;
        // The claim and the second look succeed: nobody else is at work.
        if slots[k].state == READY && !(slots[k].stage >= 2 || slots[k].banned) {
          ReadyUpdate(slots, k, Cleared(slots[k]));
          slots := slots[k := Cleared(slots[k])];
          size := size - 1;
          evicted := evicted + 1;
        }
        i := i + 1;
      }
      gone := Indices(sorted[..target]);
      EvictsAll(old(slots), slots, sorted, target, count, now);
    }
  }

  // The records named are cleared, the others are as before.
  ghost predicate ClearedAll(before: seq<Record>, after: seq<Record>, gone: set<nat>) {
    |after| == |before| && forall i: nat | i < |before| ::
      after[i] == if i in gone then Cleared(before[i]) else before[i]
  }

  lemma ClearNext(before: seq<Record>, after: seq<Record>, cands: seq<Candidate>, i: nat, now: int)
    requires i < |cands| && Collected(cands, before, now, |before|) && ClearedAll(before, after, Indices(cands[..i]))
    ensures var k := cands[i].index;
      && k < |after| && after[k] == before[k] && after[k].state == READY && after[k].stage < 2 && !after[k].banned
      && Cleared(after[k]).state == 0
      && ClearedAll(before, after[k := Cleared(after[k])], Indices(cands[..i + 1]))
  {
    var k := cands[i].index;
    assert IsCandidate(cands[i], before, now);
    assert k !in Indices(cands[..i]);
    assert cands[..i + 1] == cands[..i] + [cands[i]];
    assert Indices(cands[..i + 1]) == Indices(cands[..i]) + {k};
  }

  lemma {:induction false} ReadyUpdate(slots: seq<Record>, i: nat, r: Record)
    requires i < |slots| && slots[i].state == READY && r.state != READY
    ensures ReadyCount(slots) > 0 && ReadyCount(slots[i := r]) == ReadyCount(slots) - 1
    decreases |slots|
  {
    var n := |slots| - 1;
    if i == n {
      assert slots[i := r][..n] == slots[..n];
    } else {
      assert slots[i := r][..n] == slots[..n][i := r];
      ReadyUpdate(slots[..n], i, r);
    }
  }

  lemma {:induction false} ReadyNone(slots: seq<Record>, i: nat)
    requires i < |slots| && ReadyCount(slots) == 0
    ensures slots[i].state != READY
    decreases |slots|
  {
    var n := |slots| - 1;
    if i < n {
      ReadyNone(slots[..n], i);
    }
  }

  lemma NoneReady(slots: seq<Record>, now: int)
    requires ReadyCount(slots) == 0
    ensures EligibleSet(slots, now) == {}
  {
    forall i: nat | i < |slots|
      ensures !Eligible(slots[i], now)
    {
      ReadyNone(slots, i);
    }
  }

  lemma EvictsAll(before: seq<Record>, after: seq<Record>, cands: seq<Candidate>, target: nat, count: nat, now: int)
    requires Collected(cands, before, now, |before|) && SortedByLru(cands)
    requires target == (if |cands| < count then |cands| else count)
    requires ClearedAll(before, after, Indices(cands[..target]))
    ensures Evicts(before, after, Indices(cands[..target]), count, now) && |Indices(cands[..target])| == target
  {
    hide Eligible, Cleared;
    AllCollected(cands, before, now);
    IndicesSize(cands[..target]);
    var gone := Indices(cands[..target]);
    forall i, j | i in gone && j in EligibleSet(before, now) && j !in gone
      ensures before[i].lru <= before[j].lru
    {
      var a :| 0 <= a < target && cands[a].index == i;
      var b := FoundLater(cands, target, j);
      assert IsCandidate(cands[a], before, now) && IsCandidate(cands[b], before, now);
    }
  }

  lemma FoundLater(cands: seq<Candidate>, target: nat, j: nat) returns (b: nat)
    requires target <= |cands| && j in Indices(cands) && j !in Indices(cands[..target])
    ensures target <= b < |cands| && cands[b].index == j
  {
    assert cands == cands[..target] + cands[target..];
    var c :| c in cands && c.index == j;
    assert c in cands[target..];
    b :| target <= b < |cands| && cands[b] == c;
  }

  // So protected records are never touched.
  lemma ProtectedStay(before: seq<Record>, after: seq<Record>, gone: set<nat>, count: nat, now: int, i: nat)
    requires Evicts(before, after, gone, count, now) && i < |before|
    requires before[i].banned || before[i].stage >= 2 || now - before[i].lastSeen < 300 || before[i].state != READY
    ensures after[i] == before[i]
  {
  }
}
