/** min_heap.c: the ten records with the highest threat score, in a binary min-heap kept in place.
    A record is known by its address; its counters are read through `cnt`. */
module TopK {

  const HEAP_K := 10

  type Ptr = nat
  const NULL: Ptr := 0

  datatype Counters = Counters(total: int, sqli: int, err4: int, err5: int)

  // threat_score
  function Score(cnt: Ptr -> Counters, p: Ptr): int {
    if p == NULL then 0
    else var c := cnt(p); c.total + c.sqli * 50 + c.err4 * 3 + c.err5 * 5
  }

  // ---------- Heap order ----------

  function Parent(i: int): int { (i - 1) / 2 }

  predicate Edge(s: seq<Ptr>, cnt: Ptr -> Counters, j: int)
    requires 0 < j < |s|
  {
    Score(cnt, s[Parent(j)]) <= Score(cnt, s[j])
  }

  predicate Ordered(s: seq<Ptr>, cnt: Ptr -> Counters) {
    forall j | 0 < j < |s| :: Edge(s, cnt, j)
  }

  // Order holds away from position i, and across it.
  predicate Near(s: seq<Ptr>, cnt: Ptr -> Counters, i: int) {
    && (forall j | 0 < j < |s| && j != i && Parent(j) != i :: Edge(s, cnt, j))
    && (0 < i < |s| ==> forall j | 0 < j < |s| && Parent(j) == i :: Score(cnt, s[Parent(i)]) <= Score(cnt, s[j]))
  }

  // Only the children of i may be out of order.
  predicate Down(s: seq<Ptr>, cnt: Ptr -> Counters, i: int) {
    Near(s, cnt, i) && (0 < i < |s| ==> Edge(s, cnt, i))
  }

  // Only i and its parent may be out of order.
  predicate Up(s: seq<Ptr>, cnt: Ptr -> Counters, i: int) {
    Near(s, cnt, i) && forall j | 0 < j < |s| && Parent(j) == i :: Edge(s, cnt, j)
  }

  function Swap(s: seq<Ptr>, i: int, j: int): (t: seq<Ptr>)
    requires 0 <= i < |s| && 0 <= j < |s|
    ensures |t| == |s| && multiset(t) == multiset(s)
  {
    s[i := s[j]][j := s[i]]
  }

  lemma UpSwap(s: seq<Ptr>, cnt: Ptr -> Counters, i: int)
    requires Near(s, cnt, i) && 0 < i < |s| && !Edge(s, cnt, i)
    ensures Up(Swap(s, i, Parent(i)), cnt, Parent(i))
  {
    var p := Parent(i);
    var t := Swap(s, i, p);
    forall j | 0 < j < |t| && j != p
      ensures Edge(t, cnt, j)
    {
      if Parent(j) == p && j != i {
        assert Edge(s, cnt, j);
      } else if Parent(j) != i && Parent(j) != p {
        assert Edge(s, cnt, j);
      }
    }
    if p > 0 {
      assert Edge(s, cnt, p);
      forall j | 0 < j < |t| && Parent(j) == p
        ensures Score(cnt, t[Parent(p)]) <= Score(cnt, t[j])
      {
        if j != i {
          assert Edge(s, cnt, j);
        }
      }
    }
  }

  lemma DownSwap(s: seq<Ptr>, cnt: Ptr -> Counters, i: int, c: int)
    requires Down(s, cnt, i) && 0 <= i < c < |s| && Parent(c) == i && !Edge(s, cnt, c)
    requires forall j | 0 < j < |s| && Parent(j) == i :: Score(cnt, s[c]) <= Score(cnt, s[j])
    ensures Down(Swap(s, i, c), cnt, c)
  {
    var t := Swap(s, i, c);
    forall j | 0 < j < |t| && Parent(j) != c
      ensures Edge(t, cnt, j)
    {
      if j != i && j != c && Parent(j) != i {
        assert Edge(s, cnt, j);
      }
    }
    forall j | 0 < j < |t| && Parent(j) == c
      ensures Score(cnt, t[Parent(c)]) <= Score(cnt, t[j])
    {
      assert Edge(s, cnt, j);
    }
  }

  lemma SwapComm(s: seq<Ptr>, i: int, j: int)
    requires 0 <= i < |s| && 0 <= j < |s|
    ensures Swap(s, i, j) == Swap(s, j, i)
  {
  }

  // One turn of the loop that moves an entry up; `was` is the heap before the loop.
  lemma RiseStep(s: seq<Ptr>, cnt: Ptr -> Counters, i: int, was: seq<Ptr>, start: int)
    requires 0 < i < |s| && !Edge(s, cnt, i)
    requires if i == start then s == was else Near(was, cnt, start) ==> Up(s, cnt, i)
    ensures Near(was, cnt, start) ==> Up(Swap(s, i, Parent(i)), cnt, Parent(i))
  {
    if Near(was, cnt, start) {
      UpSwap(s, cnt, i);
    }
  }

  lemma RiseEnd(s: seq<Ptr>, cnt: Ptr -> Counters, i: int, was: seq<Ptr>, start: int)
    requires 0 <= i <= start < |s| == |was| && (i == 0 || Edge(s, cnt, i))
    requires if i == start then s == was else Near(was, cnt, start) ==> Up(s, cnt, i)
    ensures Near(was, cnt, start) ==> Down(s, cnt, start)
    ensures Up(was, cnt, start) ==> Ordered(s, cnt)
  {
    if Near(was, cnt, start) && (i < start || Up(was, cnt, start)) {
      forall j | 0 < j < |s|
        ensures Edge(s, cnt, j)
      {
      }
    }
  }

  // One turn of the loop that moves an entry down: c is i or its smaller child.
  lemma SinkStep(s: seq<Ptr>, cnt: Ptr -> Counters, i: int, c: int)
    requires 0 <= i < |s| && 0 <= c < |s|
    requires c == i || (Parent(c) == i && c > i && !Edge(s, cnt, c))
    requires forall j | 0 < j < |s| && Parent(j) == i :: Score(cnt, s[c]) <= Score(cnt, s[j])
    ensures Down(s, cnt, i) ==> if c == i then Ordered(s, cnt) else Down(Swap(s, i, c), cnt, c)
  {
    if Down(s, cnt, i) {
      if c == i {
        forall j | 0 < j < |s|
          ensures Edge(s, cnt, j)
        {
        }
      } else {
        DownSwap(s, cnt, i, c);
      }
    }
  }

  // The root is a minimum.
  lemma {:induction false} RootIsMin(s: seq<Ptr>, cnt: Ptr -> Counters, j: int)
    requires Ordered(s, cnt) && 0 <= j < |s|
    ensures Score(cnt, s[0]) <= Score(cnt, s[j])
    decreases j
  {
    if j > 0 {
      RootIsMin(s, cnt, Parent(j));
      assert Edge(s, cnt, j);
    }
  }

  // A record may change its score while it is in the heap: only its own surroundings suffer.
  lemma OneChanged(s: seq<Ptr>, before: Ptr -> Counters, cnt: Ptr -> Counters, k: int)
    requires 0 <= k < |s| && Ordered(s, before)
    requires forall j | 0 <= j < |s| && j != k :: Score(cnt, s[j]) == Score(before, s[j])
    ensures Near(s, cnt, k)
  {
    forall j | 0 < j < |s| && j != k && Parent(j) != k
      ensures Edge(s, cnt, j)
    {
      assert Edge(s, before, j);
    }
    if k > 0 {
      assert Edge(s, before, k);
      forall j | 0 < j < |s| && Parent(j) == k
        ensures Score(cnt, s[Parent(k)]) <= Score(cnt, s[j])
      {
        assert Edge(s, before, j);
      }
    }
  }

  // ---------- The heap in place ----------

  class MinHeap {
    const entries: array<Ptr>
    var size: nat

    ghost predicate Valid()
      reads this
    {
      entries.Length == HEAP_K && size <= HEAP_K
    }

    ghost function Contents(): (s: seq<Ptr>)
      requires Valid()
      reads this, entries
    {
      entries[..size]
    }

    // heap_init
    constructor ()
      ensures Valid() && Contents() == [] && fresh(entries)
    {
      entries := new Ptr[HEAP_K](_ => NULL);
      size := 0;
    }

    method Exchange(i: nat, j: nat, ghost n: nat)
      requires i < n <= entries.Length && j < n
      modifies entries
      ensures entries[..n] == Swap(old(entries[..n]), i, j)
      ensures entries[n..] == old(entries[n..])
    {
      var tmp := entries[i];
      entries[i] := entries[j];
      entries[j] := tmp;
    }

    // sift_up, on the first n entries
    method SiftUp(cnt: Ptr -> Counters, start: nat, ghost n: nat)
      requires start < n <= entries.Length
      modifies entries
      ensures multiset(entries[..n]) == multiset(old(entries[..n])) && entries[n..] == old(entries[n..])
      ensures Near(old(entries[..n]), cnt, start) ==> Down(entries[..n], cnt, start)
      ensures Up(old(entries[..n]), cnt, start) ==> Ordered(entries[..n], cnt)
    {
      hide Score, Near, Up, Down;
      var i := start;
      while i > 0
        invariant 0 <= i <= start < n
        invariant multiset(entries[..n]) == multiset(old(entries[..n])) && entries[n..] == old(entries[n..])
        invariant i == start ==> entries[..n] == old(entries[..n])
        invariant i < start ==> Near(old(entries[..n]), cnt, start) ==> Up(entries[..n], cnt, i)
      {
        var parent := (i - 1) / 2;
        if Score(cnt, entries[parent]) > Score(cnt, entries[i]) {
          ghost var s := entries[..n];
          Exchange(parent, i, n);
          SwapComm(s, parent, i);
          RiseStep(s, cnt, i, old(entries[..n]), start);
          i := parent;
        } else {
          break;
        }
      }
      RiseEnd(entries[..n], cnt, i, old(entries[..n]), start);
    }

    // sift_down
    method SiftDown(cnt: Ptr -> Counters, start: nat)
      requires Valid() && start < size
      modifies entries
      ensures multiset(Contents()) == multiset(old(Contents())) && entries[size..] == old(entries[size..])
      ensures Down(old(Contents()), cnt, start) ==> Ordered(Contents(), cnt)
    {
      hide Score, Down, Ordered;
      var i := start;
      while true
        invariant i < size
        invariant multiset(Contents()) == multiset(old(Contents())) && entries[size..] == old(entries[size..])
        invariant Down(old(Contents()), cnt, start) ==> Down(Contents(), cnt, i)
        decreases size - i
      {
        var s, l, r := i, 2 * i + 1, 2 * i + 2;
        if l < size && Score(cnt, entries[l]) < Score(cnt, entries[s]) {
          s := l;
        }
        if r < size && Score(cnt, entries[r]) < Score(cnt, entries[s]) {
          s := r;
        }
        SinkStep(Contents(), cnt, i, s);
        if s == i {
          break;
        }
        ghost var before := Contents();
        Exchange(s, i, size);
        SwapComm(before, s, i);
        i := s;
      }
    }

    // A record found at k is moved to where its score belongs.
    method Resettle(cnt: Ptr -> Counters, k: nat)
      requires Valid() && k < size
      modifies entries
      ensures multiset(Contents()) == multiset(old(Contents()))
      ensures Near(old(Contents()), cnt, k) ==> Ordered(Contents(), cnt)
    {
      hide Score, Near, Down, Up, Ordered;
      SiftUp(cnt, k, size);
      SiftDown(cnt, k);
    }

    method Append(cnt: Ptr -> Counters, rec: Ptr)
      requires Valid() && size < HEAP_K
      modifies this, entries
      ensures Valid() && multiset(Contents()) == multiset(old(Contents()) + [rec])
      ensures Ordered(old(Contents()), cnt) ==> Ordered(Contents(), cnt)
    {
      hide Score, Near, Down, Up, Ordered;
      entries[size] := rec;
      AppendUp(old(Contents()), cnt, rec);
      assert entries[..size + 1] == old(Contents()) + [rec];
      SiftUp(cnt, size, size + 1);
      size := size + 1;
    }

    method ReplaceRoot(cnt: Ptr -> Counters, rec: Ptr)
      requires Valid() && size > 0
      modifies entries
      ensures multiset(Contents()) == multiset(old(Contents())[0 := rec])
      ensures Ordered(old(Contents()), cnt) ==> Ordered(Contents(), cnt)
    {
      hide Score, Near, Down, Up, Ordered;
      entries[0] := rec;
      assert Contents() == old(Contents())[0 := rec];
      ReplaceDown(old(Contents()), cnt, rec);
      SiftDown(cnt, 0);
    }

    method Find(rec: Ptr) returns (k: nat)
      requires Valid()
      ensures k <= size && (k < size ==> entries[k] == rec) && (k == size ==> rec !in Contents())
    {
      k := 0;
      while k < size
        invariant k <= size && rec !in entries[..k]
      {
        if entries[k] == rec {
          return;
        }
        k := k + 1;
      }
    }

    // heap_try_insert
    method TryInsert(cnt: Ptr -> Counters, rec: Ptr)
      requires Valid()
      modifies this, entries
      ensures Valid()
      ensures multiset(Contents()) == Inserted(cnt, old(Contents()), rec)
      ensures Ready(old(Contents()), cnt, rec) ==> Ordered(Contents(), cnt)
    {
      hide Score, Near, Ordered;
      if rec == NULL {
        return;
      }
      var k := Find(rec);
      if k < size {
        assert Contents()[k] == rec;
        Resettle(cnt, k);
      } else if size < HEAP_K {
        Append(cnt, rec);
      } else if Score(cnt, rec) > Score(cnt, entries[0]) {
        ReplaceRoot(cnt, rec);
      }
    }

    // heap_sort_desc
    method SortDesc(cnt: Ptr -> Counters, out: array<Ptr>)
      requires Valid() && out.Length == HEAP_K && out != entries
      modifies out
      ensures multiset(out[..size]) == multiset(Contents())
      ensures Ordered(Contents(), cnt) ==> Descending(out[..size], cnt)
      ensures forall k | size <= k < HEAP_K :: out[k] == NULL
    {
      hide Score, Ordered, Descending;
      forall k | 0 <= k < HEAP_K {
        out[k] := NULL;
      }
      var tmp := Copy();
      ghost var blank := out[size..];
      tmp.Drain(cnt, out);
      assert forall k | size <= k < HEAP_K :: out[k] == blank[k - size];
    }

    method Copy() returns (h: MinHeap)
      requires Valid()
      ensures fresh(h) && fresh(h.entries) && h.Valid() && h.Contents() == Contents()
    {
      h := new MinHeap();
      h.size := size;
      forall k | 0 <= k < HEAP_K {
        h.entries[k] := entries[k];
      }
    }

    // The minimum goes to the last free place of the output until the heap is empty.
    method Drain(cnt: Ptr -> Counters, out: array<Ptr>)
      requires Valid() && out.Length == HEAP_K && out != entries
      modifies this, entries, out
      ensures multiset(out[..old(size)]) == multiset(old(Contents()))
      ensures Ordered(old(Contents()), cnt) ==> Descending(out[..old(size)], cnt)
      ensures out[old(size)..] == old(out[size..])
    {
      hide Score, Ordered, Sorting, Descending;
      ghost var all, n, rest := Contents(), size, out[size..];
      var i := size - 1;
      SortingStarts(cnt, all);
      assert out[i + 1..n] == [];
      while i >= 0 && size > 0
        invariant -1 <= i < n <= HEAP_K && size == i + 1 && Valid()
        invariant out[n..] == rest
        invariant Sorting(cnt, Contents(), out[i + 1..n], all)
      {
        MoveRoot(cnt, out, i, n, all);
        i := i - 1;
      }
      assert out[0..n] == out[..n];
      SortingEnds(cnt, out[..n], all);
    }

    // One turn: the root goes to place i of the output.
    method MoveRoot(cnt: Ptr -> Counters, out: array<Ptr>, i: nat, ghost n: nat, ghost all: seq<Ptr>)
      requires Valid() && out.Length == HEAP_K && out != entries && i < n <= HEAP_K && size == i + 1
      requires Sorting(cnt, Contents(), out[i + 1..n], all)
      modifies this, entries, out
      ensures Valid() && size == i && Sorting(cnt, Contents(), out[i..n], all)
      ensures out[n..] == old(out[n..])
    {
      hide Score, Ordered, Sorting;
      ghost var s, done := Contents(), out[i + 1..n];
      ghost var rest := out[n..];
      out[i] := entries[0];
      assert out[i..n] == [s[0]] + done && out[n..] == rest;
      assert Contents() == s;
      PopRoot(cnt);
      PopKeeps(s, cnt, done, Contents(), all);
    }

    // The root leaves; the last entry takes its place and sinks.
    method PopRoot(cnt: Ptr -> Counters)
      requires Valid() && size > 0
      modifies this, entries
      ensures Valid() && size == old(size) - 1
      ensures multiset(Contents()) == multiset(old(Contents())[1..])
      ensures Ordered(old(Contents()), cnt) ==> Ordered(Contents(), cnt)
    {
      hide Score, Near, Down, Ordered;
      TakeLast(Contents(), cnt);
      NothingOrdered(cnt);
      LastToRoot();
      if size > 0 {
        SiftDown(cnt, 0);
      }
    }

    method LastToRoot()
      requires Valid() && size > 0
      modifies this, entries
      ensures Valid() && size == old(size) - 1
      ensures Contents() == WithoutLast(old(Contents()))
    {
      size := size - 1;
      if size > 0 {
        entries[0] := entries[size];
      }
    }
  }

  // No entry is below a later one.
  predicate Descending(s: seq<Ptr>, cnt: Ptr -> Counters) {
    forall i, j | 0 <= i < j < |s| :: Score(cnt, s[i]) >= Score(cnt, s[j])
  }

  predicate Above(cnt: Ptr -> Counters, s: seq<Ptr>, done: seq<Ptr>) {
    forall i, j | 0 <= i < |s| && 0 <= j < |done| :: Score(cnt, s[i]) >= Score(cnt, done[j])
  }

  lemma NothingOrdered(cnt: Ptr -> Counters)
    ensures Ordered([], cnt)
  {
  }

  // The last entry in the place of the first.
  function WithoutLast(s: seq<Ptr>): seq<Ptr>
    requires s != []
  {
    if |s| == 1 then [] else s[..|s| - 1][0 := s[|s| - 1]]
  }

  lemma TakeLast(s: seq<Ptr>, cnt: Ptr -> Counters)
    requires s != []
    ensures multiset(WithoutLast(s)) == multiset(s[1..])
    ensures Ordered(s, cnt) ==> Down(WithoutLast(s), cnt, 0)
  {
    var n := |s| - 1;
    if n > 0 {
      assert s[..n] == [s[0]] + s[1..n];
      assert s[1..] == s[1..n] + [s[n]];
      assert s[..n][0 := s[n]] == [s[n]] + s[1..n];
      PrefixOrdered(s, cnt, n);
      hide Down, Ordered;
      ReplaceDown(s[..n], cnt, s[n]);
    }
  }

  lemma PrefixOrdered(s: seq<Ptr>, cnt: Ptr -> Counters, n: nat)
    requires n <= |s|
    ensures Ordered(s, cnt) ==> Ordered(s[..n], cnt)
  {
    if Ordered(s, cnt) {
      forall j | 0 < j < n
        ensures Edge(s[..n], cnt, j)
      {
        assert Edge(s, cnt, j);
      }
    }
  }

  // Part of the way: the heap still to empty and the output so far.
  predicate Sorting(cnt: Ptr -> Counters, s: seq<Ptr>, done: seq<Ptr>, all: seq<Ptr>) {
    && multiset(s) + multiset(done) == multiset(all)
    && (Ordered(all, cnt) ==> Ordered(s, cnt) && Descending(done, cnt) && Above(cnt, s, done))
  }

  lemma SortingStarts(cnt: Ptr -> Counters, all: seq<Ptr>)
    ensures Sorting(cnt, all, [], all)
  {
  }

  lemma SortingEnds(cnt: Ptr -> Counters, done: seq<Ptr>, all: seq<Ptr>)
    requires Sorting(cnt, [], done, all)
    ensures multiset(done) == multiset(all) && (Ordered(all, cnt) ==> Descending(done, cnt))
  {
  }

  // Moving the root to the front of the output keeps both sides sorted.
  lemma PopKeeps(s: seq<Ptr>, cnt: Ptr -> Counters, done: seq<Ptr>, rest: seq<Ptr>, all: seq<Ptr>)
    requires s != [] && Sorting(cnt, s, done, all)
    requires multiset(rest) == multiset(s[1..]) && (Ordered(s, cnt) ==> Ordered(rest, cnt))
    ensures Sorting(cnt, rest, [s[0]] + done, all)
  {
    hide Score;
    assert s == [s[0]] + s[1..];
    if Ordered(all, cnt) {
      forall i | 0 <= i < |rest|
        ensures Score(cnt, rest[i]) >= Score(cnt, s[0]) && rest[i] in s
      {
        assert rest[i] in multiset(rest);
        assert rest[i] in s[1..];
        var j :| 0 <= j < |s| && s[j] == rest[i];
        RootIsMin(s, cnt, j);
      }
    }
  }

  // What one insertion leaves in the heap.
  function Inserted(cnt: Ptr -> Counters, s: seq<Ptr>, rec: Ptr): multiset<Ptr> {
    if rec == NULL || rec in s then multiset(s)
    else if |s| < HEAP_K then multiset(s + [rec])
    else if Score(cnt, rec) > Score(cnt, s[0]) then multiset(s[0 := rec])
    else multiset(s)
  }

  // The heap is in order, except perhaps around the record about to be inserted again.
  predicate Ready(s: seq<Ptr>, cnt: Ptr -> Counters, rec: Ptr) {
    if rec != NULL && rec in s then forall k | 0 <= k < |s| && s[k] == rec :: Near(s, cnt, k)
    else Ordered(s, cnt)
  }

  lemma AppendUp(s: seq<Ptr>, cnt: Ptr -> Counters, rec: Ptr)
    ensures Ordered(s, cnt) ==> Up(s + [rec], cnt, |s|)
  {
    if Ordered(s, cnt) {
      forall j | 0 < j < |s|
        ensures Edge(s + [rec], cnt, j)
      {
        assert Edge(s, cnt, j);
      }
    }
  }

  lemma ReplaceDown(s: seq<Ptr>, cnt: Ptr -> Counters, rec: Ptr)
    requires s != []
    ensures Ordered(s, cnt) ==> Down(s[0 := rec], cnt, 0)
  {
    if Ordered(s, cnt) {
      forall j | 0 < j < |s| && Parent(j) != 0
        ensures Edge(s[0 := rec], cnt, j)
      {
        assert Edge(s, cnt, j);
      }
    }
  }

  // ---------- Runs of insertions with fixed scores ----------

  // The best ten of the records seen, each once.
  ghost predicate Best(cnt: Ptr -> Counters, kept: multiset<Ptr>, seen: set<Ptr>) {
    && (forall x | x in kept :: kept[x] == 1 && x in seen)
    && |kept| == (if |seen| < HEAP_K then |seen| else HEAP_K)
    && (|kept| < HEAP_K ==> forall x | x in seen :: x in kept)
    && (forall x, y | x in seen && x !in kept && y in kept :: Score(cnt, x) <= Score(cnt, y))
  }

  lemma BestKeeps(cnt: Ptr -> Counters, s: seq<Ptr>, seen: set<Ptr>, rec: Ptr)
    requires Ordered(s, cnt) && Best(cnt, multiset(s), seen) && rec != NULL
    ensures Best(cnt, Inserted(cnt, s, rec), seen + {rec})
  {
    hide Score, Ordered, Best;
    if rec in s {
      BestAgain(cnt, multiset(s), seen, rec);
    } else if |s| < HEAP_K {
      assert multiset(s + [rec]) == multiset(s) + multiset{rec};
      BestGrows(cnt, multiset(s), seen, rec);
    } else {
      forall y | y in multiset(s)
        ensures Score(cnt, s[0]) <= Score(cnt, y)
      {
        var j :| 0 <= j < |s| && s[j] == y;
        RootIsMin(s, cnt, j);
      }
      assert multiset(s[0 := rec]) == multiset(s) - multiset{s[0]} + multiset{rec};
      BestChanges(cnt, multiset(s), seen, rec, s[0]);
    }
  }

  lemma BestAgain(cnt: Ptr -> Counters, m: multiset<Ptr>, seen: set<Ptr>, rec: Ptr)
    requires Best(cnt, m, seen) && rec in m
    ensures Best(cnt, m, seen + {rec})
  {
    assert seen + {rec} == seen;
  }

  lemma BestGrows(cnt: Ptr -> Counters, m: multiset<Ptr>, seen: set<Ptr>, rec: Ptr)
    requires Best(cnt, m, seen) && rec !in m && |m| < HEAP_K
    ensures Best(cnt, m + multiset{rec}, seen + {rec})
  {
    assert rec !in seen;
  }

  lemma BestChanges(cnt: Ptr -> Counters, m: multiset<Ptr>, seen: set<Ptr>, rec: Ptr, root: Ptr)
    requires Best(cnt, m, seen) && rec !in m && |m| >= HEAP_K
    requires root in m && forall y | y in m :: Score(cnt, root) <= Score(cnt, y)
    ensures Best(cnt, if Score(cnt, rec) > Score(cnt, root) then m - multiset{root} + multiset{rec} else m,
      seen + {rec})
  {
    hide Score;
    EnoughSeen(m, seen, rec);
  }

  // Ten kept records mean at least ten seen.
  lemma EnoughSeen(m: multiset<Ptr>, seen: set<Ptr>, rec: Ptr)
    requires |m| == HEAP_K == if |seen| < HEAP_K then |seen| else HEAP_K
    ensures |seen + {rec}| >= HEAP_K
  {
    if rec in seen {
      assert seen + {rec} == seen;
    }
  }

  function Seen(recs: seq<Ptr>): set<Ptr> { (set r | r in recs) - {NULL} }

  // Any run of insertions into an empty heap.
  method InsertAll(cnt: Ptr -> Counters, recs: seq<Ptr>) returns (h: MinHeap)
    ensures fresh(h) && h.Valid() && Ordered(h.Contents(), cnt)
    ensures Best(cnt, multiset(h.Contents()), Seen(recs))
  {
    hide Score, Inserted, Ordered, Best, Seen, Ready;
    h := new MinHeap();
    var k := 0;
    NothingOrdered(cnt);
    NothingSeen(cnt, recs);
    while k < |recs|
      invariant k <= |recs| && fresh(h) && fresh(h.entries) && h.Valid() && Ordered(h.Contents(), cnt)
      invariant Best(cnt, multiset(h.Contents()), Seen(recs[..k]))
    {
      ghost var s := h.Contents();
      InOrderReady(s, cnt, recs[k]);
      h.TryInsert(cnt, recs[k]);
      RunKeeps(cnt, s, recs, k);
      k := k + 1;
    }
    assert recs[..k] == recs;
  }

  lemma NothingSeen(cnt: Ptr -> Counters, recs: seq<Ptr>)
    ensures Best(cnt, multiset([]), Seen(recs[..0]))
  {
  }

  lemma RunKeeps(cnt: Ptr -> Counters, s: seq<Ptr>, recs: seq<Ptr>, k: nat)
    requires k < |recs| && Ordered(s, cnt) && Best(cnt, multiset(s), Seen(recs[..k]))
    ensures Best(cnt, Inserted(cnt, s, recs[k]), Seen(recs[..k + 1]))
  {
    hide Score, Ordered, Best;
    SeenMore(recs, k);
    if recs[k] != NULL {
      BestKeeps(cnt, s, Seen(recs[..k]), recs[k]);
    }
  }

  lemma InOrderReady(s: seq<Ptr>, cnt: Ptr -> Counters, rec: Ptr)
    requires Ordered(s, cnt)
    ensures Ready(s, cnt, rec)
  {
    forall k | 0 <= k < |s|
      ensures Near(s, cnt, k)
    {
      OneChanged(s, cnt, cnt, k);
    }
  }

  // ---------- Runs in which scores move ----------

  // Only the score of rec differs.
  ghost predicate OnlyChanged(before: Ptr -> Counters, cnt: Ptr -> Counters, rec: Ptr) {
    forall p | p != rec :: Score(cnt, p) == Score(before, p)
  }

  ghost predicate Distinct(s: seq<Ptr>) { forall x | x in multiset(s) :: multiset(s)[x] == 1 }

  lemma DistinctAt(s: seq<Ptr>, i: nat, j: nat)
    requires Distinct(s) && i < j < |s|
    ensures s[i] != s[j]
  {
    var x := s[j];
    assert s == s[..j] + [x] + s[j + 1..];
    assert multiset(s)[x] == multiset(s[..j])[x] + 1 + multiset(s[j + 1..])[x];
    assert s[i] == s[..j][i] && s[i] in multiset(s[..j]) && x in multiset(s);
  }

  // Then the heap is ready for that record.
  lemma ChangedReady(before: Ptr -> Counters, cnt: Ptr -> Counters, s: seq<Ptr>, rec: Ptr)
    requires Ordered(s, before) && Distinct(s) && OnlyChanged(before, cnt, rec)
    ensures Ready(s, cnt, rec) && (rec !in s ==> Ordered(s, cnt))
  {
    hide Score, Near;
    if rec != NULL && rec in s {
      forall k | 0 <= k < |s| && s[k] == rec
        ensures Near(s, cnt, k)
      {
        forall j | 0 <= j < |s| && j != k
          ensures Score(cnt, s[j]) == Score(before, s[j])
        {
          DistinctAt(s, if j < k then j else k, if j < k then k else j);
        }
        OneChanged(s, before, cnt, k);
      }
    } else {
      forall j | 0 < j < |s|
        ensures Edge(s, cnt, j)
      {
        assert Edge(s, before, j);
        NullScore(before, cnt);
      }
    }
  }

  lemma NullScore(before: Ptr -> Counters, cnt: Ptr -> Counters)
    ensures Score(before, NULL) == Score(cnt, NULL)
  {
  }

  // A score that grows, and the record inserted: the heap holds the best ten under the new scores.
  lemma BestMoves(before: Ptr -> Counters, cnt: Ptr -> Counters, s: seq<Ptr>, seen: set<Ptr>, rec: Ptr)
    requires Ordered(s, before) && Best(before, multiset(s), seen)
    requires OnlyChanged(before, cnt, rec) && Score(cnt, rec) >= Score(before, rec)
    ensures Best(cnt, Inserted(cnt, s, rec), if rec == NULL then seen else seen + {rec})
  {
    hide Score, Ordered, Best, OnlyChanged, Ready;
    if rec == NULL {
      NullInsert(before, cnt, multiset(s), seen);
    } else if rec in s {
      BestGrown(before, cnt, multiset(s), seen, rec);
      BestAgain(cnt, multiset(s), seen, rec);
    } else {
      BestDistinct(before, s, seen);
      ChangedReady(before, cnt, s, rec);
      BestOfOthers(before, cnt, multiset(s), seen, rec);
      BestKeeps(cnt, s, seen - {rec}, rec);
      assert seen - {rec} + {rec} == seen + {rec};
    }
  }

  lemma BestGrown(before: Ptr -> Counters, cnt: Ptr -> Counters, m: multiset<Ptr>, seen: set<Ptr>, rec: Ptr)
    requires Best(before, m, seen) && rec in m && OnlyChanged(before, cnt, rec) && Score(cnt, rec) >= Score(before, rec)
    ensures Best(cnt, m, seen)
  {
    hide Score;
  }

  // The record that is not kept is set aside.
  lemma BestOfOthers(before: Ptr -> Counters, cnt: Ptr -> Counters, m: multiset<Ptr>, seen: set<Ptr>, rec: Ptr)
    requires Best(before, m, seen) && rec !in m && OnlyChanged(before, cnt, rec)
    ensures Best(cnt, m, seen - {rec})
  {
    hide Score;
    KeptAmong(m, seen - {rec});
  }

  lemma {:induction false} KeptAmong(m: multiset<Ptr>, among: set<Ptr>)
    requires forall x | x in m :: m[x] == 1 && x in among
    ensures |m| <= |among|
    decreases |m|
  {
    if m != multiset{} {
      var x :| x in m;
      KeptAmong(m - multiset{x}, among - {x});
    }
  }

  // heap_try_insert for the one record whose score moved: the order is restored, and if the score grew
  // the best ten are kept.
  method Reinsert(h: MinHeap, ghost before: Ptr -> Counters, cnt: Ptr -> Counters, rec: Ptr, ghost seen: set<Ptr>)
    requires h.Valid() && Ordered(h.Contents(), before) && Distinct(h.Contents()) && OnlyChanged(before, cnt, rec)
    modifies h, h.entries
    ensures h.Valid() && Ordered(h.Contents(), cnt)
    ensures multiset(h.Contents()) == Inserted(cnt, old(h.Contents()), rec)
    ensures Score(cnt, rec) >= Score(before, rec) && Best(before, multiset(old(h.Contents())), seen)
      ==> Best(cnt, multiset(h.Contents()), if rec == NULL then seen else seen + {rec})
  {
    hide Score, Inserted, Ordered, Best, Ready, OnlyChanged;
    ghost var s := h.Contents();
    ChangedReady(before, cnt, s, rec);
    h.TryInsert(cnt, rec);
    if Score(cnt, rec) >= Score(before, rec) && Best(before, multiset(s), seen) {
      BestMoves(before, cnt, s, seen, rec);
    }
  }

  // At each step the score of one record has grown, or none has.
  ghost predicate Growing(start: Ptr -> Counters, cnts: seq<Ptr -> Counters>, recs: seq<Ptr>) {
    && |cnts| == |recs|
    && forall k | 0 <= k < |recs| ::
         && OnlyChanged(Latest(start, cnts[..k]), cnts[k], recs[k])
         && Score(cnts[k], recs[k]) >= Score(Latest(start, cnts[..k]), recs[k])
  }

  ghost function Latest(start: Ptr -> Counters, cnts: seq<Ptr -> Counters>): Ptr -> Counters {
    if cnts == [] then start else cnts[|cnts| - 1]
  }

  // Any run in which a record is inserted whenever its score has grown: the heap is in order and holds the
  // best ten of the records seen, under the scores of the moment.
  method TrackAll(ghost start: Ptr -> Counters, cnts: seq<Ptr -> Counters>, recs: seq<Ptr>) returns (h: MinHeap)
    requires Growing(start, cnts, recs)
    ensures fresh(h) && h.Valid() && Ordered(h.Contents(), Latest(start, cnts))
    ensures Best(Latest(start, cnts), multiset(h.Contents()), Seen(recs))
  {
    hide Score, Inserted, Ordered, Best, Seen, OnlyChanged, Latest;
    h := new MinHeap();
    var k := 0;
    NothingOrdered(Latest(start, cnts[..0]));
    NothingSeen(Latest(start, cnts[..0]), recs);
    while k < |recs|
      invariant k <= |recs| && fresh(h) && fresh(h.entries) && h.Valid()
      invariant Ordered(h.Contents(), Latest(start, cnts[..k]))
      invariant Best(Latest(start, cnts[..k]), multiset(h.Contents()), Seen(recs[..k]))
    {
      ghost var before := Latest(start, cnts[..k]);
      BestDistinct(before, h.Contents(), Seen(recs[..k]));
      assert OnlyChanged(before, cnts[k], recs[k]) && Score(cnts[k], recs[k]) >= Score(before, recs[k]);
      Reinsert(h, before, cnts[k], recs[k], Seen(recs[..k]));
      LatestIs(start, cnts, k);
      SeenMore(recs, k);
      k := k + 1;
    }
    assert recs[..k] == recs && cnts[..k] == cnts;
  }

  lemma BestDistinct(cnt: Ptr -> Counters, s: seq<Ptr>, seen: set<Ptr>)
    requires Best(cnt, multiset(s), seen)
    ensures Distinct(s)
  {
  }

  lemma LatestIs(start: Ptr -> Counters, cnts: seq<Ptr -> Counters>, k: nat)
    requires k < |cnts|
    ensures Latest(start, cnts[..k + 1]) == cnts[k]
  {
  }

  lemma SeenMore(recs: seq<Ptr>, k: nat)
    requires k < |recs|
    ensures Seen(recs[..k + 1]) == if recs[k] == NULL then Seen(recs[..k]) else Seen(recs[..k]) + {recs[k]}
  {
    assert recs[..k + 1] == recs[..k] + [recs[k]];
  }

  lemma NullInsert(before: Ptr -> Counters, cnt: Ptr -> Counters, m: multiset<Ptr>, seen: set<Ptr>)
    requires OnlyChanged(before, cnt, NULL) && Best(before, m, seen)
    ensures Best(cnt, m, seen)
  {
    NullScore(before, cnt);
    hide Score;
  }
}
