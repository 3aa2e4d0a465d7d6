/** firewall.c and geoip_lookup.c: prefix masks, the address ranges they stand for, and the binary
    search in a table of ranges. A 32-bit word is the sequence of its bits, highest first, and is
    compared by value. Reading dotted addresses is an input. */
module Cidr {
  import opened Wrappers

  const WIDTH := 32

  // ---------- Words ----------

  predicate IsWord(w: seq<bool>) { |w| == WIDTH }

  function Val(b: seq<bool>): nat {
    if b == [] then 0 else 2 * Val(b[..|b| - 1]) + if b[|b| - 1] then 1 else 0
  }

  function Same(bit: bool, n: nat): (b: seq<bool>)
    ensures |b| == n && forall k | 0 <= k < n :: b[k] == bit
  {
    seq(n, _ => bit)
  }

  function And(a: seq<bool>, b: seq<bool>): (c: seq<bool>)
    requires IsWord(a) && IsWord(b)
    ensures IsWord(c) && forall k | 0 <= k < WIDTH :: c[k] == (a[k] && b[k])
  {
    seq(WIDTH, k requires 0 <= k < WIDTH => a[k] && b[k])
  }

  function Or(a: seq<bool>, b: seq<bool>): (c: seq<bool>)
    requires IsWord(a) && IsWord(b)
    ensures IsWord(c) && forall k | 0 <= k < WIDTH :: c[k] == (a[k] || b[k])
  {
    seq(WIDTH, k requires 0 <= k < WIDTH => a[k] || b[k])
  }

  function Not(a: seq<bool>): (c: seq<bool>)
    requires IsWord(a)
    ensures IsWord(c) && forall k | 0 <= k < WIDTH :: c[k] == !a[k]
  {
    seq(WIDTH, k requires 0 <= k < WIDTH => !a[k])
  }

  function ShiftLeft(a: seq<bool>, n: nat): (c: seq<bool>)
    requires IsWord(a) && n <= WIDTH
    ensures IsWord(c)
  {
    a[n..] + Same(false, n)
  }

  // ---------- The two readings of a prefix ----------

  function Mask(plen: nat): (m: seq<bool>)
    requires plen <= WIDTH
    ensures IsWord(m)
  {
    if plen == 0 then Same(false, WIDTH) else ShiftLeft(Same(true, WIDTH), WIDTH - plen)
  }

  // ip_matches_cidr, once both addresses are read and the prefix length is known.
  predicate Matches(addr: seq<bool>, net: seq<bool>, plen: int)
    requires IsWord(addr) && IsWord(net)
  {
    0 <= plen <= WIDTH && And(addr, Mask(plen)) == And(net, Mask(plen))
  }

  datatype Range = Range(start: seq<bool>, end: seq<bool>)

  // The range of a prefix: the network under the mask, and with all other bits set.
  function RangeOf(net: seq<bool>, plen: nat): (r: Range)
    requires IsWord(net) && plen <= WIDTH
    ensures IsWord(r.start) && IsWord(r.end)
  {
    var start := And(net, Mask(plen));
    Range(start, Or(start, Not(Mask(plen))))
  }

  // parse_cidr_v4; `zero` tells that an unreadable text starts with the digit 0, which the code
  // takes for address 0.
  function ParseCidr(base: Option<seq<bool>>, zero: bool, plen: int): Option<Range>
    requires base.Some? ==> IsWord(base.value)
  {
    if !(0 <= plen <= WIDTH) || (base.None? && !zero) then None
    else Some(RangeOf(if base.Some? then base.value else Same(false, WIDTH), plen))
  }

  predicate In(a: seq<bool>, r: Range) { Val(r.start) <= Val(a) <= Val(r.end) }

  // ---------- Values of words ----------

  // The value after reading more bits.
  function Read(v: nat, b: seq<bool>): nat {
    if b == [] then v else 2 * Read(v, b[..|b| - 1]) + if b[|b| - 1] then 1 else 0
  }

  lemma {:induction false} ValConcat(x: seq<bool>, y: seq<bool>)
    ensures Val(x + y) == Read(Val(x), y)
    decreases |y|
  {
    if y == [] {
      assert x + y == x;
    } else {
      assert (x + y)[..|x + y| - 1] == x + y[..|y| - 1];
      ValConcat(x, y[..|y| - 1]);
    }
  }

  // Whatever bits follow, a smaller start stays smaller.
  lemma {:induction false} ReadOrder(v: nat, x: seq<bool>, w: nat, y: seq<bool>)
    requires v < w && |x| == |y|
    ensures Read(v, x) < Read(w, y)
  {
    if x != [] {
      ReadOrder(v, x[..|x| - 1], w, y[..|y| - 1]);
    }
  }

  lemma {:induction false} ReadBetween(v: nat, x: seq<bool>)
    ensures Read(v, Same(false, |x|)) <= Read(v, x) <= Read(v, Same(true, |x|))
  {
    if x != [] {
      var n := |x| - 1;
      assert Same(false, n + 1)[..n] == Same(false, n) && Same(true, n + 1)[..n] == Same(true, n);
      ReadBetween(v, x[..n]);
    }
  }

  lemma {:induction false} ValInjective(x: seq<bool>, y: seq<bool>)
    requires |x| == |y| && Val(x) == Val(y)
    ensures x == y
  {
    if x != [] {
      var n := |x| - 1;
      ValInjective(x[..n], y[..n]);
      assert x == x[..n] + [x[n]] && y == y[..n] + [y[n]];
    }
  }

  // ---------- The mask test is membership ----------

  lemma MaskIs(plen: nat, k: nat)
    requires plen <= WIDTH && k < WIDTH
    ensures Mask(plen)[k] == (k < plen)
  {
  }

  lemma AndMask(a: seq<bool>, plen: nat)
    requires IsWord(a) && plen <= WIDTH
    ensures And(a, Mask(plen)) == a[..plen] + Same(false, WIDTH - plen)
  {
    hide Mask;
    forall k | 0 <= k < WIDTH
      ensures And(a, Mask(plen))[k] == (a[..plen] + Same(false, WIDTH - plen))[k]
    {
      MaskIs(plen, k);
    }
  }

  // The range of a prefix: its bits, then zeros, and its bits, then ones.
  lemma RangeIs(net: seq<bool>, plen: nat)
    requires IsWord(net) && plen <= WIDTH
    ensures RangeOf(net, plen) == Range(net[..plen] + Same(false, WIDTH - plen), net[..plen] + Same(true, WIDTH - plen))
  {
    hide Mask;
    AndMask(net, plen);
    var start, end := And(net, Mask(plen)), net[..plen] + Same(true, WIDTH - plen);
    assert Or(start, Not(Mask(plen))) == end by {
      forall k | 0 <= k < WIDTH
        ensures Or(start, Not(Mask(plen)))[k] == end[k]
      {
        MaskIs(plen, k);
      }
    }
  }

  // An address lies in the range exactly when it starts with the prefix.
  lemma InRange(a: seq<bool>, net: seq<bool>, plen: nat)
    requires IsWord(a) && IsWord(net) && plen <= WIDTH
    ensures In(a, RangeOf(net, plen)) <==> a[..plen] == net[..plen]
  {
    hide Val, RangeOf, Read;
    var p, n, m, rest := a[..plen], net[..plen], WIDTH - plen, a[plen..];
    RangeIs(net, plen);
    ValConcat(n, Same(false, m));
    ValConcat(n, Same(true, m));
    assert a == p + rest;
    ValConcat(p, rest);
    if Val(p) == Val(n) {
      ValInjective(p, n);
      ReadBetween(Val(p), rest);
    } else if Val(p) < Val(n) {
      ReadOrder(Val(p), rest, Val(n), Same(false, m));
    } else {
      ReadOrder(Val(n), Same(true, m), Val(p), rest);
    }
  }

  // For every address, network and prefix length the firewall test and the range agree.
  lemma MatchIsMembership(addr: seq<bool>, net: seq<bool>, plen: nat)
    requires IsWord(addr) && IsWord(net) && plen <= WIDTH
    ensures Matches(addr, net, plen) <==> In(addr, RangeOf(net, plen))
  {
    hide Mask, And, RangeOf, In;
    AndMask(addr, plen);
    AndMask(net, plen);
    InRange(addr, net, plen);
    var z := Same(false, WIDTH - plen);
    assert (addr[..plen] + z)[..plen] == addr[..plen] && (net[..plen] + z)[..plen] == net[..plen];
  }

  // The two readings of one text: an address lies in the parsed range if and only if the text is read
  // as a network that the firewall test matches.
  lemma ParsedMatches(base: Option<seq<bool>>, zero: bool, plen: int, a: seq<bool>)
    requires (base.Some? ==> IsWord(base.value)) && IsWord(a)
    ensures var r, net := ParseCidr(base, zero, plen), if base.Some? then base.value else Same(false, WIDTH);
      r.Some? && In(a, r.value) <==> (base.Some? || zero) && Matches(a, net, plen)
  {
    hide Mask, And, RangeOf, In;
    if 0 <= plen <= WIDTH {
      MatchIsMembership(a, if base.Some? then base.value else Same(false, WIDTH), plen);
    }
  }

  // ---------- Ranges are nested or disjoint ----------

  predicate Inside(r: Range, q: Range) { Val(q.start) <= Val(r.start) && Val(r.end) <= Val(q.end) }

  predicate Apart(r: Range, q: Range) { Val(r.end) < Val(q.start) || Val(q.end) < Val(r.start) }

  lemma LongerNests(net1: seq<bool>, p1: nat, net2: seq<bool>, p2: nat)
    requires IsWord(net1) && IsWord(net2) && p2 <= p1 <= WIDTH
    ensures var r, q := RangeOf(net1, p1), RangeOf(net2, p2);
      if net1[..p2] == net2[..p2] then Inside(r, q) else Apart(r, q)
  {
    hide RangeOf, Val;
    var r, q := RangeOf(net1, p1), RangeOf(net2, p2);
    RangeIs(net1, p1);
    RangeIs(net2, p2);
    assert r.start[..p2] == net1[..p2] == r.end[..p2];
    InRange(r.start, net2, p2);
    InRange(r.end, net2, p2);
    assert q.start[..p2] == net2[..p2];
    if net1[..p2] != net2[..p2] {
      assert q.start[..p1][..p2] == q.start[..p2] && net1[..p1][..p2] == net1[..p2];
      InRange(q.start, net1, p1);
    }
  }

  lemma NestedOrDisjoint(net1: seq<bool>, p1: nat, net2: seq<bool>, p2: nat)
    requires IsWord(net1) && IsWord(net2) && p1 <= WIDTH && p2 <= WIDTH
    ensures var r, q := RangeOf(net1, p1), RangeOf(net2, p2); Inside(r, q) || Inside(q, r) || Apart(r, q)
  {
    hide RangeOf, Val;
    if p2 <= p1 {
      LongerNests(net1, p1, net2, p2);
    } else {
      LongerNests(net2, p2, net1, p1);
    }
  }

  // ip_matches_cidr_list: one matching entry is enough, unread entries never match.
  method MatchesList(addr: seq<bool>, cidrs: seq<Option<(seq<bool>, int)>>) returns (r: bool)
    requires IsWord(addr) && forall k | 0 <= k < |cidrs| :: cidrs[k].Some? ==> IsWord(cidrs[k].value.0)
    ensures r <==> exists k | 0 <= k < |cidrs| :: cidrs[k].Some? && Matches(addr, cidrs[k].value.0, cidrs[k].value.1)
  {
    hide Matches;
    for i := 0 to |cidrs|
      invariant forall k | 0 <= k < i :: cidrs[k].Some? ==> !Matches(addr, cidrs[k].value.0, cidrs[k].value.1)
    {
      if cidrs[i].Some? && Matches(addr, cidrs[i].value.0, cidrs[i].value.1) {
        return true;
      }
    }
    r := false;
  }

  // ---------- The country table ----------

  datatype Entry = Entry(start: nat, end: nat, cc: string)

  predicate Covers(e: Entry, addr: nat) { e.start <= addr <= e.end }

  // The first entry that covers an address; the length when there is none.
  function Linear(table: seq<Entry>, addr: nat): (i: nat)
    ensures i <= |table| && (i < |table| ==> Covers(table[i], addr))
    ensures forall k | 0 <= k < i :: !Covers(table[k], addr)
  {
    if table == [] || Covers(table[0], addr) then 0 else 1 + Linear(table[1..], addr)
  }

  // The halving search between lo and hi.
  function Halving(table: seq<Entry>, addr: nat, lo: nat, hi: nat): (i: nat)
    requires lo <= hi <= |table|
    ensures i <= |table| && (i < |table| ==> Covers(table[i], addr))
    decreases hi - lo
  {
    if lo == hi then |table|
    else
      var mid := lo + (hi - lo) / 2;
      if addr < table[mid].start then Halving(table, addr, lo, mid)
      else if addr > table[mid].end then Halving(table, addr, mid + 1, hi)
      else mid
  }

  // offline_lookup_v4
  method Lookup(table: seq<Entry>, addr: nat) returns (cc: Option<string>)
    ensures var i := Halving(table, addr, 0, |table|); cc == if i < |table| then Some(table[i].cc) else None
  {
    cc := None;
    var lo, hi := 0, |table|;
    while lo < hi
      invariant lo <= hi <= |table| && Halving(table, addr, 0, |table|) == Halving(table, addr, lo, hi)
    {
      var mid := lo + (hi - lo) / 2;
      if addr < table[mid].start {
        hi := mid;
      } else if addr > table[mid].end {
        lo := mid + 1;
      } else {
        cc := Some(table[mid].cc);
        return;
      }
    }
  }

  predicate SortedByStart(table: seq<Entry>) {
    forall i, j | 0 <= i < j < |table| :: table[i].start <= table[j].start
  }

  // The search for addr does not turn away from entry i: no probe right of i ends before addr, having
  // started by then.
  predicate Kept(table: seq<Entry>, addr: nat, i: int, lo: nat, hi: nat)
    requires lo <= hi <= |table|
    decreases hi - lo
  {
    lo < hi &&
    var mid := lo + (hi - lo) / 2;
    if i == mid then true
    else if i < mid then (addr < table[mid].start || addr <= table[mid].end) && Kept(table, addr, i, lo, mid)
    else Kept(table, addr, i, mid + 1, hi)
  }

  predicate Reached(table: seq<Entry>, addr: nat, i: nat, lo: nat, hi: nat)
    requires lo <= hi <= |table| && i < |table|
  {
    Covers(table[i], addr) && Kept(table, addr, i, lo, hi)
  }

  lemma {:induction false} KeptInside(table: seq<Entry>, addr: nat, i: int, lo: nat, hi: nat)
    requires lo <= hi <= |table| && Kept(table, addr, i, lo, hi)
    ensures lo <= i < hi
    decreases hi - lo
  {
    var mid := lo + (hi - lo) / 2;
    if i < mid {
      KeptInside(table, addr, i, lo, mid);
    } else if i > mid {
      KeptInside(table, addr, i, mid + 1, hi);
    }
  }

  // A covering entry that is kept is found, or another one is.
  lemma {:induction false} KeptIsFound(table: seq<Entry>, addr: nat, i: nat, lo: nat, hi: nat)
    requires SortedByStart(table) && lo <= hi <= |table| && i < |table| && Reached(table, addr, i, lo, hi)
    ensures Halving(table, addr, lo, hi) < |table|
    decreases hi - lo
  {
    var mid := lo + (hi - lo) / 2;
    KeptInside(table, addr, i, lo, hi);
    if i < mid {
      if addr < table[mid].start {
        KeptIsFound(table, addr, i, lo, mid);
      }
    } else if i > mid {
      if addr > table[mid].end {
        KeptIsFound(table, addr, i, mid + 1, hi);
      }
    }
  }

  // What is found was kept.
  lemma {:induction false} FoundIsKept(table: seq<Entry>, addr: nat, lo: nat, hi: nat)
    requires SortedByStart(table) && lo <= hi <= |table| && Halving(table, addr, lo, hi) < |table|
    ensures Reached(table, addr, Halving(table, addr, lo, hi), lo, hi)
    decreases hi - lo
  {
    var mid, i := lo + (hi - lo) / 2, Halving(table, addr, lo, hi);
    if addr < table[mid].start {
      FoundIsKept(table, addr, lo, mid);
      KeptInside(table, addr, i, lo, mid);
    } else if addr > table[mid].end {
      FoundIsKept(table, addr, mid + 1, hi);
      KeptInside(table, addr, i, mid + 1, hi);
    }
  }
  // For every table sorted by start and every address: the search finds an entry if and only if some
  // entry that covers the address is kept.
  lemma FoundExactly(table: seq<Entry>, addr: nat)
    requires SortedByStart(table)
    ensures Halving(table, addr, 0, |table|) < |table| <==>
      exists i: nat :: i < |table| && Reached(table, addr, i, 0, |table|)
  {
    hide Halving, Reached;
    if Halving(table, addr, 0, |table|) < |table| {
      FoundIsKept(table, addr, 0, |table|);
    } else {
      forall i: nat | i < |table|
        ensures !Reached(table, addr, i, 0, |table|)
      {
        if Reached(table, addr, i, 0, |table|) {
          KeptIsFound(table, addr, i, 0, |table|);
        }
      }
    }
  }

  // So an address is missed if and only if entries cover it and none of them is kept.
  lemma MissedExactly(table: seq<Entry>, addr: nat)
    requires SortedByStart(table)
    ensures Linear(table, addr) < |table| && Halving(table, addr, 0, |table|) == |table| <==>
      && (exists i: nat :: i < |table| && Covers(table[i], addr))
      && (forall i: nat | i < |table| && Covers(table[i], addr) :: !Kept(table, addr, i, 0, |table|))
  {
    hide Halving, Kept, Linear;
    FoundExactly(table, addr);
    forall i: nat | i < |table|
      ensures Reached(table, addr, i, 0, |table|) <==> Covers(table[i], addr) && Kept(table, addr, i, 0, |table|)
    {
    }
  }

  // Sorted by start, no range reaching into the next.
  predicate Disjoint(table: seq<Entry>) {
    && (forall i | 0 <= i < |table| :: table[i].start <= table[i].end)
    && (forall i, j | 0 <= i < j < |table| :: table[i].end < table[j].start)
  }

  // In a disjoint table a covering entry is always kept.
  lemma {:induction false} CoveringIsKept(table: seq<Entry>, addr: nat, i: nat, lo: nat, hi: nat)
    requires Disjoint(table) && lo <= i < hi <= |table| && Covers(table[i], addr)
    ensures Kept(table, addr, i, lo, hi)
    decreases hi - lo
  {
    var mid := lo + (hi - lo) / 2;
    if i < mid {
      CoveringIsKept(table, addr, i, lo, mid);
    } else if i > mid {
      CoveringIsKept(table, addr, i, mid + 1, hi);
    }
  }

  lemma OneCovers(table: seq<Entry>, addr: nat, i: nat, j: nat)
    requires Disjoint(table) && i < |table| && j < |table| && Covers(table[i], addr) && Covers(table[j], addr)
    ensures i == j
  {
  }

  // On disjoint ranges the search finds what a scan finds, for every address.
  lemma SearchIsScan(table: seq<Entry>, addr: nat)
    requires Disjoint(table)
    ensures Halving(table, addr, 0, |table|) == Linear(table, addr)
  {
    hide Halving, Linear, Kept;
    SortedFromDisjoint(table);
    FoundExactly(table, addr);
    var i, h := Linear(table, addr), Halving(table, addr, 0, |table|);
    if i < |table| {
      CoveringIsKept(table, addr, i, 0, |table|);
      assert Reached(table, addr, i, 0, |table|);
      OneCovers(table, addr, i, h);
    }
  }

  lemma SortedFromDisjoint(table: seq<Entry>)
    requires Disjoint(table)
    ensures SortedByStart(table)
  {
    forall i, j | 0 <= i < j < |table|
      ensures table[i].start <= table[j].start
    {
      assert table[i].start <= table[i].end < table[j].start;
    }
  }

  // A table of prefixes sorted by start is disjoint as soon as no range lies inside another.
  lemma PrefixTable(nets: seq<seq<bool>>, plens: seq<nat>, table: seq<Entry>)
    requires IsPrefixTable(nets, plens, table) && SortedByStart(table) && NoneNested(table)
    ensures Disjoint(table)
  {
    hide RangeOf, Val;
    forall i | 0 <= i < |table|
      ensures table[i].start <= table[i].end
    {
      assert IsPrefixEntry(table[i], nets[i], plens[i]);
      StartBelowEnd(nets[i], plens[i]);
    }
    forall i, j | 0 <= i < j < |table|
      ensures table[i].end < table[j].start
    {
      assert IsPrefixEntry(table[i], nets[i], plens[i]) && IsPrefixEntry(table[j], nets[j], plens[j]);
      NestedOrDisjoint(nets[i], plens[i], nets[j], plens[j]);
    }
  }

  ghost predicate IsPrefixTable(nets: seq<seq<bool>>, plens: seq<nat>, table: seq<Entry>) {
    && |nets| == |plens| == |table|
    && forall i | 0 <= i < |table| :: IsWord(nets[i]) && plens[i] <= WIDTH && IsPrefixEntry(table[i], nets[i], plens[i])
  }

  predicate NoneNested(table: seq<Entry>) {
    forall i, j | 0 <= i < |table| && 0 <= j < |table| && i != j
      :: !(table[j].start <= table[i].start && table[i].end <= table[j].end)
  }

  // The lookup and the firewall test tell the same: on a sorted table of prefixes, none inside another,
  // the search stops at an entry if and only if the address matches its prefix.
  lemma LookupMatches(nets: seq<seq<bool>>, plens: seq<nat>, table: seq<Entry>, a: seq<bool>, i: nat)
    requires IsPrefixTable(nets, plens, table) && SortedByStart(table) && NoneNested(table) && IsWord(a) && i < |table|
    ensures Halving(table, Val(a), 0, |table|) == i <==> Matches(a, nets[i], plens[i])
  {
    hide Halving, Linear, Matches, RangeOf, Val, SortedByStart, NoneNested;
    PrefixTable(nets, plens, table);
    SearchIsScan(table, Val(a));
    assert IsPrefixEntry(table[i], nets[i], plens[i]);
    MatchIsMembership(a, nets[i], plens[i]);
    assert Covers(table[i], Val(a)) <==> Matches(a, nets[i], plens[i]);
    var h := Linear(table, Val(a));
    if Covers(table[i], Val(a)) {
      OneCovers(table, Val(a), i, h);
    }
  }

  ghost predicate IsPrefixEntry(e: Entry, net: seq<bool>, plen: nat)
    requires IsWord(net) && plen <= WIDTH
  {
    e.start == Val(RangeOf(net, plen).start) && e.end == Val(RangeOf(net, plen).end)
  }

  lemma StartBelowEnd(net: seq<bool>, plen: nat)
    requires IsWord(net) && plen <= WIDTH
    ensures Val(RangeOf(net, plen).start) <= Val(RangeOf(net, plen).end)
  {
    hide RangeOf, Val;
    InRange(net, net, plen);
  }

  // A range inside another can hide an address, for every pair of them probed in this order.
  lemma NestedMisses(outer: Entry, inner: Entry, addr: nat)
    requires outer.start <= inner.start <= inner.end < addr <= outer.end
    ensures Linear([outer, inner], addr) == 0 && Halving([outer, inner], addr, 0, 2) == 2
  {
    assert Halving([outer, inner], addr, 0, 2) == Halving([outer, inner], addr, 2, 2);
  }
}
