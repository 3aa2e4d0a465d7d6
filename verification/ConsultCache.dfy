/** api_server.c: the cache of consult verdicts, a probed array of 128 slots with expiry times. The
    clock is an input that never goes back, read once per cache call. */
module ConsultCache {
  import opened Wrappers
  import opened Probing

  const SLOTS := 128

  datatype Verdict = Verdict(allow: bool, score: int, sqli: bool)
  datatype Slot = Slot(key: nat, expire: int, verdict: Verdict)

  predicate Live(s: Slot, now: int) { s.expire > now }

  // ---------- What the two scans find ----------

  // The first live slot with the key, from i on; 128 when there is none.
  function Hit(slots: seq<Slot>, key: nat, now: int, i: nat): (r: nat)
    requires |slots| == SLOTS && i <= SLOTS
    ensures i <= r <= SLOTS && (r < SLOTS ==> slots[r].key == key && Live(slots[r], now))
    ensures forall k | i <= k < r :: !(slots[k].key == key && Live(slots[k], now))
    decreases SLOTS - i
  {
    if i == SLOTS || (slots[i].key == key && Live(slots[i], now)) then i else Hit(slots, key, now, i + 1)
  }

  // The first probe that may be overwritten.
  function Place(slots: seq<Slot>, key: nat, now: int, k: nat): (r: nat)
    requires |slots| == SLOTS && k <= SLOTS
    ensures k <= r <= SLOTS
    ensures r < SLOTS ==> slots[At(key % SLOTS, r, SLOTS)].key == key || !Live(slots[At(key % SLOTS, r, SLOTS)], now)
    ensures forall j | k <= j < r ::
      slots[At(key % SLOTS, j, SLOTS)].key != key && Live(slots[At(key % SLOTS, j, SLOTS)], now)
    decreases SLOTS - k
  {
    if k == SLOTS || slots[At(key % SLOTS, k, SLOTS)].key == key || !Live(slots[At(key % SLOTS, k, SLOTS)], now) then k
    else Place(slots, key, now, k + 1)
  }

  function Looked(slots: seq<Slot>, key: nat, now: int, ttl: int): Option<Verdict>
    requires |slots| == SLOTS
  {
    var i := Hit(slots, key, now, 0);
    if ttl > 0 && i < SLOTS then Some(slots[i].verdict) else None
  }

  function Stored(slots: seq<Slot>, key: nat, v: Verdict, now: int, ttl: int): (r: seq<Slot>)
    requires |slots| == SLOTS
    ensures |r| == SLOTS
  {
    var k := Place(slots, key, now, 0);
    if ttl > 0 && k < SLOTS then slots[At(key % SLOTS, k, SLOTS) := Slot(key, now + ttl, v)] else slots
  }

  // ---------- The cache in place ----------

  class Cache {
    var slots: seq<Slot>
    var ttl: int

    ghost predicate Valid()
      reads this
    {
      |slots| == SLOTS && 0 <= ttl <= 300
    }

    constructor ()
      ensures Valid() && slots == seq(SLOTS, _ => Slot(0, 0, Verdict(false, 0, false))) && ttl == 0
    {
      slots := seq(SLOTS, _ => Slot(0, 0, Verdict(false, 0, false)));
      ttl := 0;
    }

    // api_server_set_consult_cache_ttl
    method SetTtl(sec: int)
      requires Valid()
      modifies `ttl
      ensures Valid() && ttl == if 0 < sec <= 300 then sec else 0
    {
      ttl := if sec > 0 && sec <= 300 then sec else 0;
    }

    // consult_cache_lookup
    method Lookup(key: nat, now: int) returns (r: Option<Verdict>)
      requires Valid()
      ensures r == Looked(slots, key, now, ttl)
    {
      r := None;
      if ttl <= 0 {
        return;
      }
      var i := 0;
      while i < SLOTS
        invariant i <= SLOTS && Hit(slots, key, now, 0) == Hit(slots, key, now, i)
      {
        if slots[i].key == key && slots[i].expire > now {
          return Some(slots[i].verdict);
        }
        i := i + 1;
      }
    }

    // consult_cache_store
    method Store(key: nat, v: Verdict, now: int)
      requires Valid()
      modifies `slots
      ensures Valid() && slots == Stored(old(slots), key, v, now, ttl)
    {
      if ttl <= 0 {
        return;
      }
      var exp, slot, i := now + ttl, key % SLOTS, 0;
      while i < SLOTS
        invariant i <= SLOTS && slots == old(slots) && Place(slots, key, now, 0) == Place(slots, key, now, i)
      {
        var j := At(slot, i, SLOTS);
        if slots[j].key == key || slots[j].expire <= now {
          slots := slots[j := Slot(key, exp, v)];
          return;
        }
        i := i + 1;
      }
    }

    // The use of both in handle_get_consult: `fresh` is what the analysis answers on a miss, stored
    // at time `later`.
    method Consult(key: nat, v: Verdict, now: int, later: int) returns (r: Verdict, cached: bool)
      requires Valid()
      modifies `slots
      ensures Valid() && slots == After(old(slots), Op(key, v, now, later, ttl))
      ensures (r, cached) == Answer(old(slots), Op(key, v, now, later, ttl))
    {
      hide Looked, Stored;
      var found := Lookup(key, now);
      if found.Some? {
        return found.value, true;
      }
      Store(key, v, later);
      return v, false;
    }
  }

  // ---------- The array refines a map with expiry times ----------

  datatype Op = Op(key: nat, verdict: Verdict, now: int, later: int, ttl: int)

  function After(slots: seq<Slot>, op: Op): (r: seq<Slot>)
    requires |slots| == SLOTS
    ensures |r| == SLOTS
  {
    if Looked(slots, op.key, op.now, op.ttl).Some? then slots else Stored(slots, op.key, op.verdict, op.later, op.ttl)
  }

  function Answer(slots: seq<Slot>, op: Op): (Verdict, bool)
    requires |slots| == SLOTS
  {
    var found := Looked(slots, op.key, op.now, op.ttl);
    if found.Some? then (found.value, true) else (op.verdict, false)
  }

  datatype Item = Item(verdict: Verdict, expire: int)

  // A store is dropped exactly when every slot is live.
  predicate Full(slots: seq<Slot>, now: int) { forall i | 0 <= i < |slots| :: Live(slots[i], now) }

  function MapLooked(m: map<nat, Item>, key: nat, now: int, ttl: int): Option<Verdict> {
    if ttl > 0 && key in m && m[key].expire > now then Some(m[key].verdict) else None
  }

  function MapAfter(m: map<nat, Item>, op: Op, full: bool): map<nat, Item> {
    if MapLooked(m, op.key, op.now, op.ttl).Some? || op.ttl <= 0 then m
    else if full then m - {op.key} else m[op.key := Item(op.verdict, op.later + op.ttl)]
  }

  function MapAnswer(m: map<nat, Item>, op: Op): (Verdict, bool) {
    var found := MapLooked(m, op.key, op.now, op.ttl);
    if found.Some? then (found.value, true) else (op.verdict, false)
  }

  predicate Occupied(slots: seq<Slot>, key: nat, now: int) {
    exists i | 0 <= i < |slots| :: slots[i].key == key && Live(slots[i], now)
  }

  ghost predicate Refines(slots: seq<Slot>, m: map<nat, Item>, now: int) {
    && |slots| == SLOTS
    && (forall i, j | 0 <= i < j < SLOTS && slots[i].key == slots[j].key ::
      !(Live(slots[i], now) && Live(slots[j], now)))
    && (forall i | 0 <= i < SLOTS && Live(slots[i], now) ::
          slots[i].key in m && m[slots[i].key] == Item(slots[i].verdict, slots[i].expire))
    && (forall k | k in m && m[k].expire > now :: Occupied(slots, k, now))
  }

  // Time alone keeps the refinement.
  lemma TimePasses(slots: seq<Slot>, m: map<nat, Item>, now: int, later: int)
    requires Refines(slots, m, now) && now <= later
    ensures Refines(slots, m, later)
  {
    forall k | k in m && m[k].expire > later
      ensures Occupied(slots, k, later)
    {
      assert Occupied(slots, k, now);
      var i :| 0 <= i < SLOTS && slots[i].key == k && Live(slots[i], now);
      assert Live(slots[i], later);
    }
  }

  lemma LookupAgrees(slots: seq<Slot>, m: map<nat, Item>, key: nat, now: int, ttl: int)
    requires Refines(slots, m, now)
    ensures Looked(slots, key, now, ttl) == MapLooked(m, key, now, ttl)
  {
    if key in m && m[key].expire > now {
      assert Occupied(slots, key, now);
    }
  }

  // Probing visits every slot.
  lemma ProbedAll(slots: seq<Slot>, key: nat, now: int)
    requires |slots| == SLOTS && Place(slots, key, now, 0) == SLOTS
    ensures Full(slots, now)
  {
    hide Place, At;
    forall i: nat | i < SLOTS
      ensures Live(slots[i], now)
    {
      var k := AtReaches(key % SLOTS, i, SLOTS);
    }
  }

  // After a miss only slots that are no longer live are overwritten.
  lemma PlaceIsDead(slots: seq<Slot>, key: nat, now: int)
    requires |slots| == SLOTS && !Occupied(slots, key, now)
    ensures var k := Place(slots, key, now, 0);
      (k == SLOTS <==> Full(slots, now)) && (k < SLOTS ==> !Live(slots[At(key % SLOTS, k, SLOTS)], now))
  {
    if Place(slots, key, now, 0) == SLOTS {
      ProbedAll(slots, key, now);
    }
  }

  lemma Overwrite(slots: seq<Slot>, m: map<nat, Item>, now: int, j: nat, key: nat, v: Verdict, ttl: int)
    requires Refines(slots, m, now) && j < SLOTS && !Live(slots[j], now) && !Occupied(slots, key, now) && ttl > 0
    ensures Refines(slots[j := Slot(key, now + ttl, v)], m[key := Item(v, now + ttl)], now)
  {
    var r, m' := slots[j := Slot(key, now + ttl, v)], m[key := Item(v, now + ttl)];
    assert r[j].key == key && Live(r[j], now);
    forall k | k in m' && m'[k].expire > now
      ensures Occupied(r, k, now)
    {
      if k != key {
        assert Occupied(slots, k, now);
        var i :| 0 <= i < SLOTS && slots[i].key == k && Live(slots[i], now);
        assert r[i] == slots[i];
      }
    }
  }

  lemma Drop(slots: seq<Slot>, m: map<nat, Item>, now: int, key: nat)
    requires Refines(slots, m, now) && !Occupied(slots, key, now)
    ensures Refines(slots, m - {key}, now)
  {
  }

  lemma MissIsVacant(slots: seq<Slot>, m: map<nat, Item>, key: nat, now: int, later: int, ttl: int)
    requires Refines(slots, m, now) && MapLooked(m, key, now, ttl) == None && ttl > 0 && now <= later
    ensures !Occupied(slots, key, later)
  {
  }

  // One consult: the same answer from the array and from the map, and the array still refines it.
  lemma StepRefines(slots: seq<Slot>, m: map<nat, Item>, now: int, op: Op)
    requires Refines(slots, m, now) && now <= op.now <= op.later
    ensures Answer(slots, op) == MapAnswer(m, op)
    ensures Refines(After(slots, op), MapAfter(m, op, Full(slots, op.later)), op.later)
  {
    hide Refines, Occupied, Full, Place, Hit;
    TimePasses(slots, m, now, op.now);
    RefinesLength(slots, m, now);
    LookupAgrees(slots, m, op.key, op.now, op.ttl);
    TimePasses(slots, m, op.now, op.later);
    if MapLooked(m, op.key, op.now, op.ttl).None? && op.ttl > 0 {
      MissIsVacant(slots, m, op.key, op.now, op.later, op.ttl);
      PlaceIsDead(slots, op.key, op.later);
      var k := Place(slots, op.key, op.later, 0);
      if k < SLOTS {
        Overwrite(slots, m, op.later, At(op.key % SLOTS, k, SLOTS), op.key, op.verdict, op.ttl);
      } else {
        Drop(slots, m, op.later, op.key);
      }
    }
  }

  lemma RefinesLength(slots: seq<Slot>, m: map<nat, Item>, now: int)
    requires Refines(slots, m, now)
    ensures |slots| == SLOTS
  {
  }

  // ---------- Whole runs ----------

  // The clock never goes back.
  predicate Clock(ops: seq<Op>) {
    && (forall k | 0 <= k < |ops| :: 0 <= ops[k].now <= ops[k].later)
    && (forall j, k | 0 <= j < k < |ops| :: ops[j].later <= ops[k].now)
  }

  function Time(ops: seq<Op>): int { if ops == [] then 0 else ops[|ops| - 1].later }

  function RunSlots(ops: seq<Op>): (r: seq<Slot>)
    ensures |r| == SLOTS
  {
    if ops == [] then seq(SLOTS, _ => Slot(0, 0, Verdict(false, 0, false)))
    else After(RunSlots(ops[..|ops| - 1]), ops[|ops| - 1])
  }

  function RunMap(ops: seq<Op>): map<nat, Item> {
    if ops == [] then map[]
    else
      var n := |ops| - 1;
      MapAfter(RunMap(ops[..n]), ops[n], Full(RunSlots(ops[..n]), ops[n].later))
  }

  lemma {:induction false} RunRefines(ops: seq<Op>)
    requires Clock(ops)
    ensures Refines(RunSlots(ops), RunMap(ops), Time(ops))
  {
    hide After, MapAfter, Refines;
    if ops == [] {
      StartRefines();
    } else {
      var n := |ops| - 1;
      RunRefines(ops[..n]);
      StepRefines(RunSlots(ops[..n]), RunMap(ops[..n]), Time(ops[..n]), ops[n]);
    }
  }

  lemma StartRefines()
    ensures Refines(RunSlots([]), map[], 0)
  {
  }

  datatype Attempt = Attempt(op: Op, accepted: bool)

  // The last store made for a key, and whether there was room for it.
  function LastStore(ops: seq<Op>, key: nat): Option<Attempt> {
    if ops == [] then None
    else
      var n := |ops| - 1;
      var s := RunSlots(ops[..n]);
      if ops[n].key == key && ops[n].ttl > 0 && !Answer(s, ops[n]).1
      then Some(Attempt(ops[n], !Full(s, ops[n].later)))
      else LastStore(ops[..n], key)
  }

  // The map holds the accepted last stores and nothing else.
  lemma {:induction false} MapIsLastStores(ops: seq<Op>, key: nat)
    requires Clock(ops)
    ensures key in RunMap(ops) <==> LastStore(ops, key).Some? && LastStore(ops, key).value.accepted
    ensures key in RunMap(ops) ==>
      var o := LastStore(ops, key).value.op; RunMap(ops)[key] == Item(o.verdict, o.later + o.ttl)
  {
    hide Refines, Full, After, RunSlots, Answer;
    if ops != [] {
      var n := |ops| - 1;
      MapIsLastStores(ops[..n], key);
      RunRefines(ops[..n]);
      StepRefines(RunSlots(ops[..n]), RunMap(ops[..n]), Time(ops[..n]), ops[n]);
    }
  }

  // A consult is answered from the cache if and only if the last store for its key had room and is
  // not over; the answer is then the verdict stored.
  lemma HitsAreLastStores(ops: seq<Op>, op: Op)
    requires Clock(ops + [op])
    ensures Answer(RunSlots(ops), op).1 <==>
      && op.ttl > 0 && LastStore(ops, op.key).Some? && LastStore(ops, op.key).value.accepted
      && op.now < LastStore(ops, op.key).value.op.later + LastStore(ops, op.key).value.op.ttl
    ensures Answer(RunSlots(ops), op).1 ==> Answer(RunSlots(ops), op).0 == LastStore(ops, op.key).value.op.verdict
  {
    hide Refines, RunSlots, RunMap, Answer, LastStore;
    var all := ops + [op];
    assert all[|ops|] == op && forall k | 0 <= k < |ops| :: all[k] == ops[k];
    RunRefines(ops);
    StepRefines(RunSlots(ops), RunMap(ops), Time(ops), op);
    MapIsLastStores(ops, op.key);
  }

  // At every moment at most one live slot per key.
  lemma OneLiveSlot(ops: seq<Op>, i: nat, j: nat)
    requires Clock(ops) && i < j < SLOTS && RunSlots(ops)[i].key == RunSlots(ops)[j].key
    ensures !(Live(RunSlots(ops)[i], Time(ops)) && Live(RunSlots(ops)[j], Time(ops)))
  {
    hide RunSlots, RunMap;
    RunRefines(ops);
  }

  // Any run of requests, each under the setting of the moment: the cache answers like the map.
  method Serve(ops: seq<Op>) returns (c: Cache, answers: seq<(Verdict, bool)>)
    requires forall k | 0 <= k < |ops| :: 0 <= ops[k].ttl <= 300
    ensures fresh(c) && c.Valid() && c.slots == RunSlots(ops) && |answers| == |ops|
    ensures Clock(ops) ==> forall k | 0 <= k < |ops| :: answers[k] == MapAnswer(RunMap(ops[..k]), ops[k])
  {
    hide After, Answer, MapAnswer, RunMap, Clock;
    c := new Cache();
    answers := [];
    var n := 0;
    while n < |ops|
      invariant n <= |ops| && fresh(c) && c.Valid() && c.slots == RunSlots(ops[..n])
      invariant |answers| == n
      invariant Clock(ops) ==> forall k | 0 <= k < n :: answers[k] == MapAnswer(RunMap(ops[..k]), ops[k])
    {
      assert ops[..n + 1][..n] == ops[..n];
      c.SetTtl(ops[n].ttl);
      var v, cached := c.Consult(ops[n].key, ops[n].verdict, ops[n].now, ops[n].later);
      AnswersLikeMap(ops, n);
      answers := answers + [(v, cached)];
      n := n + 1;
    }
    assert ops[..n] == ops;
  }

  lemma AnswersLikeMap(ops: seq<Op>, n: nat)
    requires n < |ops|
    ensures Clock(ops) ==> Answer(RunSlots(ops[..n]), ops[n]) == MapAnswer(RunMap(ops[..n]), ops[n])
  {
    hide RunSlots, RunMap, Refines, Answer, MapAnswer;
    if Clock(ops) {
      RunRefines(ops[..n]);
      StepRefines(RunSlots(ops[..n]), RunMap(ops[..n]), Time(ops[..n]), ops[n]);
    }
  }

  // ---------- Stores that no miss preceded ----------

  predicate LiveFor(slots: seq<Slot>, key: nat, now: int, i: int) {
    0 <= i < |slots| && slots[i].key == key && Live(slots[i], now)
  }

  predicate TwoLive(slots: seq<Slot>, key: nat, now: int) {
    exists i, j | 0 <= i < j < |slots| :: LiveFor(slots, key, now, i) && LiveFor(slots, key, now, j)
  }

  // On the probe path of the key a slot that is no longer live comes before a live one of the key.
  predicate DeadBefore(slots: seq<Slot>, key: nat, now: int, p: nat, q: nat) {
    && |slots| == SLOTS && p < q < SLOTS && !Live(slots[At(key % SLOTS, p, SLOTS)], now)
    && LiveFor(slots, key, now, At(key % SLOTS, q, SLOTS))
  }

  lemma DeadMakesTwo(slots: seq<Slot>, key: nat, v: Verdict, now: int, ttl: int, p: nat, q: nat)
    requires ttl > 0 && DeadBefore(slots, key, now, p, q)
    ensures TwoLive(Stored(slots, key, v, now, ttl), key, now)
  {
    var start, k := key % SLOTS, Place(slots, key, now, 0);
    hide At, Place;
    assert k <= p;
    var a, b := At(start, k, SLOTS), At(start, q, SLOTS);
    assert a != b by {
      if a == b {
        AtInjective(start, k, q, SLOTS);
      }
    }
    PairIsTwo(Stored(slots, key, v, now, ttl), key, now, a, b);
  }

  lemma PairIsTwo(slots: seq<Slot>, key: nat, now: int, a: int, b: int)
    requires a != b && LiveFor(slots, key, now, a) && LiveFor(slots, key, now, b)
    ensures TwoLive(slots, key, now)
  {
    var i, j := if a < b then a else b, if a < b then b else a;
    assert LiveFor(slots, key, now, i) && LiveFor(slots, key, now, j);
  }

  lemma TwoNeedDead(slots: seq<Slot>, key: nat, v: Verdict, now: int, ttl: int) returns (p: nat, q: nat)
    requires |slots| == SLOTS && ttl > 0 && !TwoLive(slots, key, now)
    requires TwoLive(Stored(slots, key, v, now, ttl), key, now)
    ensures DeadBefore(slots, key, now, p, q)
  {
    var start, k := key % SLOTS, Place(slots, key, now, 0);
    var r := Stored(slots, key, v, now, ttl);
    hide At, Place;
    var i, j :| 0 <= i < j < SLOTS && LiveFor(r, key, now, i) && LiveFor(r, key, now, j);
    var a := At(start, k, SLOTS);
    var b := if i == a then j else i;
    assert LiveFor(slots, key, now, b);
    if LiveFor(slots, key, now, a) {
      PairIsTwo(slots, key, now, a, b);
    }
    p := k;
    q := AtReaches(start, b, SLOTS);
  }

  // A store leaves two live slots for its key, where there was at most one, if and only if a slot that
  // is no longer live comes before the live one on the probe path.
  lemma StoreDuplicatesExactly(slots: seq<Slot>, key: nat, v: Verdict, now: int, ttl: int)
    requires |slots| == SLOTS && ttl > 0 && !TwoLive(slots, key, now)
    ensures TwoLive(Stored(slots, key, v, now, ttl), key, now) <==>
      exists p: nat, q: nat :: DeadBefore(slots, key, now, p, q)
  {
    hide TwoLive, Stored, DeadBefore;
    if TwoLive(Stored(slots, key, v, now, ttl), key, now) {
      var p, q := TwoNeedDead(slots, key, v, now, ttl);
    } else {
      forall p: nat, q: nat
        ensures !DeadBefore(slots, key, now, p, q)
      {
        if DeadBefore(slots, key, now, p, q) {
          DeadMakesTwo(slots, key, v, now, ttl, p, q);
        }
      }
    }
  }

  // This happens after a run: two keys with one start are stored, the first expires, and the second
  // is stored again without a lookup.
  lemma StoreWithoutMiss(v: Verdict, w: Verdict)
    ensures var ops := [Op(128, v, 0, 0, 10), Op(256, v, 5, 5, 10)];
      Clock(ops) && TwoLive(Stored(RunSlots(ops), 256, w, 12, 10), 256, 12)
  {
    var a, b := Op(128, v, 0, 0, 10), Op(256, v, 5, 5, 10);
    assert [a, b][..1] == [a] && [a][..0] == [];
    hide Looked;
    var s0, s1 := RunSlots([]), RunSlots([a]);
    NeverStored(s0, 128, 0, 10);
    assert Place(s0, 128, 0, 0) == 0;
    assert s1 == s0[0 := Slot(128, 10, v)];
    NeverStored(s1, 256, 5, 10);
    assert Place(s1, 256, 5, 0) == Place(s1, 256, 5, 1) == 1;
    var s2 := RunSlots([a, b]);
    assert s2 == s1[1 := Slot(256, 15, v)];
    DeadMakesTwo(s2, 256, w, 12, 10, 0, 1);
  }

  lemma NeverStored(slots: seq<Slot>, key: nat, now: int, ttl: int)
    requires |slots| == SLOTS && forall i | 0 <= i < SLOTS :: slots[i].key != key
    ensures Looked(slots, key, now, ttl) == None
  {
  }
}
