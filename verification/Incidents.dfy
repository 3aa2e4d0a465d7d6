/** incident_engine.c: signals about one client address are gathered in a slot and, once they
    correlate, the slot gets an incident ID. The clock is an input. */
module Incidents {
  import opened Wrappers
  import opened Probing

  const SLOTS := 256
  const HOT_MAX := 64
  const IP_LEN := 46

  // An ID is printed from the time and the address hash; it is never empty.
  datatype Id = Id(time: int, low: nat)
  datatype Slot = Slot(ip: string, signals: bv32, hits: nat, first: int, last: int, id: Option<Id>)
  datatype Settings = Settings(window: int, minHits: int)
  datatype Table = Table(slots: seq<Slot>, hot: seq<string>, total: nat)

  const EMPTY := Slot("", 0, 0, 0, 0, None)

  // ---------- Addresses ----------

  // ip_hash
  function Hash(ip: string): (h: nat)
    ensures h < 0x1_0000_0000
  {
    if ip == "" then 5381
    else (33 * Hash(ip[..|ip| - 1]) + ip[|ip| - 1] as int) % 0x1_0000_0000
  }

  // is_valid_client_ip
  predicate ValidIp(ip: string) {
    ip != "" && ip != "lineage" && ip != "SYSTEM" && ('.' in ip || ':' in ip)
  }

  // What strncpy leaves of an address.
  function Stored(ip: string): string { if |ip| < IP_LEN then ip else ip[..IP_LEN - 1] }

  // ---------- Correlation ----------

  function Bit(sig: bv32, mask: bv32): nat { if sig & mask != 0 then 1 else 0 }

  predicate IsLog(sig: bv32) { sig & 7 != 0 }

  function With(a: bv32, b: bv32): bv32 { a | b }

  function LogKinds(sig: bv32): nat { Bit(sig, 1) + Bit(sig, 2) + Bit(sig, 4) }

  // should_correlate
  predicate Correlates(st: Settings, s: Slot) {
    || (LogKinds(s.signals) > 0 && s.signals & 0x38 != 0)
    || LogKinds(s.signals) >= 2
    || (LogKinds(s.signals) > 0 && s.hits >= st.minHits)
  }

  // maybe_open_incident
  function Opened(st: Settings, s: Slot, now: int): Slot {
    if s.id == None && Correlates(st, s) then s.(id := Some(Id(now, Hash(s.ip) % 65536))) else s
  }

  function Opens(st: Settings, s: Slot): nat { if s.id == None && Correlates(st, s) then 1 else 0 }

  predicate Expired(st: Settings, s: Slot, now: int) { s.ip != "" && s.last != 0 && now - s.last > st.window }

  // ---------- Probing ----------

  // The number of the first probe from k on that meets the address; 256 when none does. Free slots
  // hold the empty address.
  function Probe(slots: seq<Slot>, start: nat, k: nat, ip: string): (r: nat)
    requires |slots| == SLOTS && start < SLOTS && k <= SLOTS
    ensures k <= r <= SLOTS && (r < SLOTS ==> slots[At(start, r, SLOTS)].ip == ip)
    ensures forall j | k <= j < r :: slots[At(start, j, SLOTS)].ip != ip
    decreases SLOTS - k
  {
    if k == SLOTS || slots[At(start, k, SLOTS)].ip == ip then k else Probe(slots, start, k + 1, ip)
  }

  // slot_find for any address, the empty one included.
  function Find(slots: seq<Slot>, start: nat, ip: string): (r: Option<nat>)
    requires |slots| == SLOTS && start < SLOTS
    ensures r.Some? ==> r.value < SLOTS && slots[r.value].ip == ip
    ensures r.None? ==> forall j | 0 <= j < SLOTS :: slots[j].ip != ip
  {
    var k := Probe(slots, start, 0, ip);
    assert k == SLOTS ==> forall j | 0 <= j < SLOTS :: slots[j].ip != ip by {
      if k == SLOTS {
        ProbedAll(slots, start, ip);
      }
    }
    if k < SLOTS then Some(At(start, k, SLOTS)) else None
  }

  lemma ProbedAll(slots: seq<Slot>, start: nat, ip: string)
    requires |slots| == SLOTS && start < SLOTS && forall j | 0 <= j < SLOTS :: slots[At(start, j, SLOTS)].ip != ip
    ensures forall j | 0 <= j < SLOTS :: slots[j].ip != ip
  {
    forall j | 0 <= j < SLOTS
      ensures slots[j].ip != ip
    {
      var k := AtReaches(start, j, SLOTS);
    }
  }

  // The first slot that has waited longest.
  function Oldest(slots: seq<Slot>, n: nat): (r: nat)
    requires 1 <= n <= |slots|
    ensures r < n && forall j | 0 <= j < n :: slots[r].last <= slots[j].last
    ensures forall j | 0 <= j < r :: slots[r].last < slots[j].last
  {
    if n == 1 then 0
    else
      var r := Oldest(slots, n - 1);
      if slots[n - 1].last < slots[r].last then n - 1 else r
  }

  function StartOf(ip: string): (s: nat)
    ensures s < SLOTS
  {
    Hash(ip) % SLOTS
  }

  // slot_get_or_create: the slot, and what it holds then.
  datatype Choice = Choice(index: nat, slot: Slot)

  function Choose(slots: seq<Slot>, ip: string): (c: Choice)
    requires |slots| == SLOTS
    ensures c.index < SLOTS
  {
    var found := if ValidIp(ip) then Find(slots, StartOf(ip), ip) else None;
    if found.Some? then Choice(found.value, slots[found.value])
    else
      var free := Find(slots, StartOf(ip), "");
      if free.Some? then Choice(free.value, slots[free.value].(ip := Stored(ip)))
      else Choice(Oldest(slots, SLOTS), EMPTY.(ip := Stored(ip)))
  }

  // slot_refresh_window and the repair of the address after it.
  function Refreshed(st: Settings, s: Slot, ip: string, now: int): Slot {
    if Expired(st, s, now) then EMPTY.(ip := Stored(ip))
    else if s.ip == "" then s.(ip := Stored(ip)) else s
  }

  function Marked(s: Slot, sig: bv32, now: int): Slot {
    s.(first := if s.first == 0 then now else s.first,
       hits := if IsLog(sig) then (s.hits + 1) % 65536 else s.hits,
       signals := With(s.signals, sig), last := now)
  }

  // hot_touch
  function HotTouched(hot: seq<string>, ip: string): seq<string> {
    if ip in hot then hot
    else if |hot| < HOT_MAX then hot + [Stored(ip)]
    else hot[1..] + [Stored(ip)]
  }

  // ---------- The two note functions ----------

  datatype Event = Note(ip: string, sig: bv32, now: int) | Host(sig: bv32, now: int)

  predicate Ignored(e: Event) { e.sig == 0 || (e.Note? && !ValidIp(e.ip)) }

  function NoteStep(st: Settings, t: Table, ip: string, sig: bv32, now: int): Table
    requires |t.slots| == SLOTS
  {
    var c := Choose(t.slots, ip);
    var s := Marked(Refreshed(st, c.slot, ip, now), sig, now);
    Table(t.slots[c.index := Opened(st, s, now)], HotTouched(t.hot, ip), t.total + Opens(st, s))
  }

  // One hot address of a host signal.
  function HostOne(st: Settings, t: Table, ip: string, sig: bv32, now: int): (r: Table)
    requires |t.slots| == SLOTS
    ensures |r.slots| == SLOTS && r.hot == t.hot
  {
    var found := if ValidIp(ip) then Find(t.slots, StartOf(ip), ip) else None;
    if found.None? || now - t.slots[found.value].last > st.window then t
    else
      var s := t.slots[found.value];
      var m := s.(signals := With(s.signals, sig), last := now);
      t.(slots := t.slots[found.value := Opened(st, m, now)], total := t.total + Opens(st, m))
  }

  function HostStep(st: Settings, t: Table, n: nat, sig: bv32, now: int): (r: Table)
    requires |t.slots| == SLOTS && n <= |t.hot|
    ensures |r.slots| == SLOTS && r.hot == t.hot
  {
    if n == 0 then t else HostOne(st, HostStep(st, t, n - 1, sig, now), t.hot[n - 1], sig, now)
  }

  function Step(st: Settings, t: Table, e: Event): (r: Table)
    requires |t.slots| == SLOTS
    ensures |r.slots| == SLOTS
  {
    if Ignored(e) then t
    else if e.Note? then NoteStep(st, t, e.ip, e.sig, e.now)
    else HostStep(st, t, |t.hot|, e.sig, e.now)
  }

  // ---------- The engine in place ----------

  class Engine {
    var slots: seq<Slot>
    var hot: seq<string>
    var total: nat
    const settings: Settings

    ghost predicate Valid()
      reads this
    {
      |slots| == SLOTS
    }

    function View(): Table
      reads this
    {
      Table(slots, hot, total)
    }

    // incident_engine_init
    constructor (st: Settings)
      ensures Valid() && settings == st && View() == Start()
    {
      settings := st;
      slots, hot, total := seq(SLOTS, _ => EMPTY), [], 0;
    }

    // The probe loop shared by slot_find and the search for a free slot.
    method ProbeLoop(start: nat, ip: string) returns (r: Option<nat>)
      requires Valid() && start < SLOTS
      ensures r == Find(slots, start, ip)
    {
      var i := 0;
      while i < SLOTS
        invariant i <= SLOTS && Probe(slots, start, 0, ip) == Probe(slots, start, i, ip)
      {
        if slots[At(start, i, SLOTS)].ip == ip {
          return Some(At(start, i, SLOTS));
        }
        i := i + 1;
      }
      r := None;
    }

    // slot_find
    method SlotFind(ip: string) returns (r: Option<nat>)
      requires Valid()
      ensures r == if ValidIp(ip) then Find(slots, StartOf(ip), ip) else None
    {
      if !ValidIp(ip) {
        return None;
      }
      r := ProbeLoop(StartOf(ip), ip);
    }

    // slot_get_or_create
    method SlotGetOrCreate(ip: string) returns (i: nat)
      requires Valid()
      modifies `slots
      ensures Valid() && i == Choose(old(slots), ip).index && slots == old(slots)[i := Choose(old(slots), ip).slot]
    {
      hide Find, StartOf, Stored;
      var existing := SlotFind(ip);
      if existing.Some? {
        return existing.value;
      }
      var free := ProbeLoop(StartOf(ip), "");
      if free.Some? {
        i := free.value;
        slots := slots[i := slots[i].(ip := Stored(ip))];
        return;
      }
      i := 0;
      var k := 1;
      while k < SLOTS
        invariant 1 <= k <= SLOTS && i == Oldest(slots, k) && slots == old(slots)
      {
        if slots[k].last < slots[i].last {
          i := k;
        }
        k := k + 1;
      }
      slots := slots[i := EMPTY.(ip := Stored(ip))];
    }

    // hot_touch
    method HotTouch(ip: string)
      modifies `hot
      ensures hot == HotTouched(old(hot), ip)
    {
      var i := 0;
      while i < |hot|
        invariant i <= |hot| && ip !in hot[..i] && hot == old(hot)
      {
        if hot[i] == ip {
          return;
        }
        i := i + 1;
      }
      hot := (if |hot| < HOT_MAX then hot else hot[1..]) + [Stored(ip)];
    }

    // maybe_open_incident
    method MaybeOpen(i: nat, now: int)
      requires Valid() && i < SLOTS
      modifies `slots, `total
      ensures Valid() && slots == old(slots)[i := Opened(settings, old(slots[i]), now)]
      ensures total == old(total) + Opens(settings, old(slots[i]))
    {
      hide Correlates;
      var s := slots[i];
      if s.id.Some? || !Correlates(settings, s) {
        return;
      }
      slots := slots[i := s.(id := Some(Id(now, Hash(s.ip) % 65536)))];
      total := total + 1;
    }

    // A chosen slot starts afresh when its window is over, and takes the signal.
    method MarkSlot(i: nat, ip: string, signal: bv32, now: int)
      requires Valid() && i < SLOTS
      modifies `slots
      ensures Valid() && slots == old(slots)[i := Marked(Refreshed(settings, old(slots[i]), ip, now), signal, now)]
    {
      hide Stored, IsLog, With;
      var s := slots[i];
      if s.ip != "" && s.last != 0 && now - s.last > settings.window {
        s := EMPTY;
      }
      if s.ip == "" {
        s := s.(ip := Stored(ip));
      }
      if s.first == 0 {
        s := s.(first := now);
      }
      if IsLog(signal) {
        s := s.(hits := (s.hits + 1) % 65536);
      }
      s := s.(signals := With(s.signals, signal), last := now);
      slots := slots[i := s];
    }

    // incident_engine_note_signal
    method NoteSignal(ip: string, signal: bv32, now: int)
      requires Valid()
      modifies this
      ensures Valid() && View() == Step(settings, old(View()), Note(ip, signal, now))
    {
      hide Choose, Opened, Opens, HotTouched, ValidIp, Marked, Refreshed;
      if signal == 0 || !ValidIp(ip) {
        return;
      }
      var i := SlotGetOrCreate(ip);
      MarkSlot(i, ip, signal, now);
      HotTouch(ip);
      MaybeOpen(i, now);
      ghost var c := Choose(old(slots), ip);
      ghost var s := Marked(Refreshed(settings, c.slot, ip, now), signal, now);
      assert slots == old(slots)[c.index := Opened(settings, s, now)];
    }

    method HostTouch(ip: string, signal: bv32, now: int)
      requires Valid()
      modifies `slots, `total
      ensures Valid() && View() == HostOne(settings, old(View()), ip, signal, now)
    {
      hide Find, Opened, Opens, ValidIp, With, StartOf;
      var found := SlotFind(ip);
      if found.None? || now - slots[found.value].last > settings.window {
        return;
      }
      var i := found.value;
      ghost var before := slots;
      slots := slots[i := slots[i].(signals := With(slots[i].signals, signal), last := now)];
      ghost var m := slots[i];
      MaybeOpen(i, now);
      assert slots == before[i := Opened(settings, m, now)];
    }

    // incident_engine_note_host_signal
    method NoteHostSignal(signal: bv32, now: int)
      requires Valid()
      modifies `slots, `total
      ensures Valid() && View() == Step(settings, old(View()), Host(signal, now))
    {
      hide HostOne;
      if signal == 0 {
        return;
      }
      var n := 0;
      while n < |hot|
        invariant n <= |hot| && Valid() && View() == HostStep(settings, old(View()), n, signal, now)
      {
        HostTouch(hot[n], signal, now);
        n := n + 1;
      }
    }
  }

  // ---------- What every step keeps ----------

  ghost predicate UniqueIps(slots: seq<Slot>) {
    forall i, j | 0 <= i < j < |slots| && slots[i].ip != "" :: slots[i].ip != slots[j].ip
  }

  ghost predicate RuleHasId(st: Settings, slots: seq<Slot>) {
    forall i | 0 <= i < |slots| && Correlates(st, slots[i]) :: slots[i].id.Some?
  }

  ghost predicate FreeIsEmpty(slots: seq<Slot>) {
    forall i | 0 <= i < |slots| && slots[i].ip == "" :: slots[i] == EMPTY
  }

  ghost predicate Inv(st: Settings, t: Table) {
    |t.slots| == SLOTS && UniqueIps(t.slots) && RuleHasId(st, t.slots) && FreeIsEmpty(t.slots)
  }

  // The address fits into a slot.
  predicate Fits(e: Event) { e.Note? ==> |e.ip| < IP_LEN }

  lemma OpenedFollowsRule(st: Settings, s: Slot, now: int)
    ensures Correlates(st, Opened(st, s, now)) ==> Opened(st, s, now).id.Some?
    ensures Opened(st, s, now).ip == s.ip
  {
  }

  lemma SlotReplaced(st: Settings, slots: seq<Slot>, i: nat, s: Slot, now: int)
    requires UniqueIps(slots) && RuleHasId(st, slots) && FreeIsEmpty(slots) && i < |slots| && s.ip != ""
    requires forall j | 0 <= j < |slots| && j != i :: slots[j].ip != s.ip
    ensures var r := slots[i := Opened(st, s, now)]; UniqueIps(r) && RuleHasId(st, r) && FreeIsEmpty(r)
  {
    hide Correlates, Opened;
    OpenedFollowsRule(st, s, now);
  }

  lemma OthersDiffer(slots: seq<Slot>, i: nat)
    requires UniqueIps(slots) && i < |slots| && slots[i].ip != ""
    ensures forall j | 0 <= j < |slots| && j != i :: slots[j].ip != slots[i].ip
  {
  }

  // The chosen slot is the address's own, or the address is in no slot.
  lemma ChosenAlone(slots: seq<Slot>, ip: string)
    requires |slots| == SLOTS && UniqueIps(slots) && ValidIp(ip) && |ip| < IP_LEN
    ensures var c := Choose(slots, ip);
      c.slot.ip == ip && forall j | 0 <= j < SLOTS && j != c.index :: slots[j].ip != ip
  {
    hide StartOf;
    var found := Find(slots, StartOf(ip), ip);
    if found.Some? {
      OthersDiffer(slots, found.value);
    }
  }

  lemma NoteKeeps(st: Settings, t: Table, ip: string, sig: bv32, now: int)
    requires Inv(st, t) && ValidIp(ip) && |ip| < IP_LEN
    ensures Inv(st, NoteStep(st, t, ip, sig, now))
  {
    hide Choose, Correlates, Opened, Opens, UniqueIps, RuleHasId, FreeIsEmpty, IsLog, With;
    ChosenAlone(t.slots, ip);
    var c := Choose(t.slots, ip);
    SlotReplaced(st, t.slots, c.index, Marked(Refreshed(st, c.slot, ip, now), sig, now), now);
  }

  lemma HostOneKeeps(st: Settings, t: Table, ip: string, sig: bv32, now: int)
    requires Inv(st, t)
    ensures Inv(st, HostOne(st, t, ip, sig, now))
  {
    hide StartOf, Correlates, Opened, Opens, UniqueIps, RuleHasId, FreeIsEmpty, With;
    var found := if ValidIp(ip) then Find(t.slots, StartOf(ip), ip) else None;
    if found.Some? {
      var s := t.slots[found.value];
      OthersDiffer(t.slots, found.value);
      SlotReplaced(st, t.slots, found.value, s.(signals := With(s.signals, sig), last := now), now);
    }
  }

  lemma {:induction false} HostKeeps(st: Settings, t: Table, n: nat, sig: bv32, now: int)
    requires Inv(st, t) && n <= |t.hot|
    ensures Inv(st, HostStep(st, t, n, sig, now))
  {
    hide HostOne;
    if n > 0 {
      HostKeeps(st, t, n - 1, sig, now);
      HostOneKeeps(st, HostStep(st, t, n - 1, sig, now), t.hot[n - 1], sig, now);
    }
  }

  lemma StepKeeps(st: Settings, t: Table, e: Event)
    requires Inv(st, t) && Fits(e)
    ensures Inv(st, Step(st, t, e))
  {
    hide Inv, HostStep, NoteStep;
    if !Ignored(e) {
      if e.Note? {
        NoteKeeps(st, t, e.ip, e.sig, e.now);
      } else {
        InvLength(st, t);
        HostKeeps(st, t, |t.hot|, e.sig, e.now);
      }
    }
  }

  lemma InvLength(st: Settings, t: Table)
    requires Inv(st, t)
    ensures |t.slots| == SLOTS
  {
  }

  // ---------- Runs ----------

  function Start(): Table { Table(seq(SLOTS, _ => EMPTY), [], 0) }

  function Run(st: Settings, events: seq<Event>): (t: Table)
    ensures |t.slots| == SLOTS
  {
    if events == [] then Start() else Step(st, Run(st, events[..|events| - 1]), events[|events| - 1])
  }

  lemma StartInv(st: Settings)
    ensures Inv(st, Start())
  {
  }

  // In every reachable state: one slot per address, and an ID wherever the rule is met.
  lemma {:induction false} RunKeeps(st: Settings, events: seq<Event>)
    requires forall k | 0 <= k < |events| :: Fits(events[k])
    ensures Inv(st, Run(st, events))
  {
    hide Inv, Step;
    if events == [] {
      StartInv(st);
    } else {
      var n := |events| - 1;
      RunKeeps(st, events[..n]);
      StepKeeps(st, Run(st, events[..n]), events[n]);
    }
  }

  // Attaching an alert later finds nothing left to open.
  lemma AttachOpensNothing(st: Settings, events: seq<Event>, i: nat)
    requires (forall k | 0 <= k < |events| :: Fits(events[k])) && i < SLOTS
    ensures Opens(st, Run(st, events).slots[i]) == 0
  {
    hide Correlates, Run;
    RunKeeps(st, events);
  }

  // ---------- IDs stay, and are counted ----------

  // The event gives slot i to an address anew: its window is over, or another address lived there.
  predicate TakenOver(st: Settings, t: Table, e: Event, i: nat)
    requires |t.slots| == SLOTS && i < SLOTS
  {
    && !Ignored(e) && e.Note? && Choose(t.slots, e.ip).index == i
    && (t.slots[i].ip != e.ip || Expired(st, t.slots[i], e.now))
  }

  lemma HostOneKeepsId(st: Settings, t: Table, ip: string, sig: bv32, now: int, i: nat)
    requires |t.slots| == SLOTS && i < SLOTS && t.slots[i].id.Some?
    ensures var r := HostOne(st, t, ip, sig, now); r.slots[i].id == t.slots[i].id && r.slots[i].ip == t.slots[i].ip
  {
    hide Find, Correlates, ValidIp, StartOf, With;
  }

  lemma {:induction false} HostKeepsId(st: Settings, t: Table, n: nat, sig: bv32, now: int, i: nat)
    requires |t.slots| == SLOTS && n <= |t.hot| && i < SLOTS && t.slots[i].id.Some?
    ensures var r := HostStep(st, t, n, sig, now); r.slots[i].id == t.slots[i].id && r.slots[i].ip == t.slots[i].ip
  {
    hide HostOne;
    if n > 0 {
      HostKeepsId(st, t, n - 1, sig, now, i);
      HostOneKeepsId(st, HostStep(st, t, n - 1, sig, now), t.hot[n - 1], sig, now, i);
    }
  }

  // Choosing a slot for an address leaves a slot that already has it as it is.
  lemma ChosenOwn(slots: seq<Slot>, ip: string)
    requires |slots| == SLOTS && ValidIp(ip) && slots[Choose(slots, ip).index].ip == ip
    ensures Choose(slots, ip).slot == slots[Choose(slots, ip).index]
  {
    hide StartOf;
  }

  lemma StepKeepsId(st: Settings, t: Table, e: Event, i: nat)
    requires |t.slots| == SLOTS && i < SLOTS && t.slots[i].id.Some? && !TakenOver(st, t, e, i)
    ensures var r := Step(st, t, e); r.slots[i].id == t.slots[i].id && r.slots[i].ip == t.slots[i].ip
  {
    hide Choose, HostStep, Correlates, ValidIp, IsLog, With, Expired;
    if !Ignored(e) {
      if e.Note? {
        if Choose(t.slots, e.ip).index == i {
          ChosenOwn(t.slots, e.ip);
          NotEmpty(e.ip);
        }
      } else {
        HostKeepsId(st, t, |t.hot|, e.sig, e.now, i);
      }
    }
  }

  lemma NotEmpty(ip: string)
    requires ValidIp(ip)
    ensures ip != ""
  {
  }

  // An ID never changes until its slot expires or is given to another address.
  lemma {:induction false} IdStays(st: Settings, events: seq<Event>, from: nat, i: nat)
    requires from <= |events| && i < SLOTS && Run(st, events[..from]).slots[i].id.Some?
    requires forall k | from <= k < |events| :: !TakenOver(st, Run(st, events[..k]), events[k], i)
    ensures var old', new' := Run(st, events[..from]).slots[i], Run(st, events).slots[i];
      new'.id == old'.id && new'.ip == old'.ip
  {
    hide Step, TakenOver;
    if from == |events| {
      assert events[..from] == events;
    } else {
      var n := |events| - 1;
      var front := events[..n];
      assert front[..from] == events[..from];
      assert forall k | from <= k < n :: front[..k] == events[..k];
      IdStays(st, front, from, i);
      assert !TakenOver(st, Run(st, events[..n]), events[n], i);
      StepKeepsId(st, Run(st, front), events[n], i);
    }
  }

  function HasId(s: Slot): nat { if s.id.Some? then 1 else 0 }

  function Live(slots: seq<Slot>): nat {
    if slots == [] then 0 else Live(slots[..|slots| - 1]) + HasId(slots[|slots| - 1])
  }

  lemma {:induction false} LiveUpdate(slots: seq<Slot>, i: nat, s: Slot)
    requires i < |slots|
    ensures Live(slots[i := s]) + HasId(slots[i]) == Live(slots) + HasId(s)
    decreases |slots|
  {
    var n := |slots| - 1;
    if i == n {
      assert slots[i := s][..n] == slots[..n];
    } else {
      assert slots[i := s][..n] == slots[..n][i := s];
      LiveUpdate(slots[..n], i, s);
    }
  }

  // The IDs that an event takes away: at most one, by taking over a slot that had one.
  function Lost(st: Settings, t: Table, e: Event): nat
    requires |t.slots| == SLOTS
  {
    if Ignored(e) || e.Host? then 0
    else
      var i := Choose(t.slots, e.ip).index;
      if TakenOver(st, t, e, i) then HasId(t.slots[i]) else 0
  }

  lemma OpenedCounts(st: Settings, s: Slot, now: int)
    ensures HasId(Opened(st, s, now)) == HasId(s) + Opens(st, s)
  {
  }

  lemma HostOneCounts(st: Settings, t: Table, ip: string, sig: bv32, now: int)
    requires |t.slots| == SLOTS
    ensures var r := HostOne(st, t, ip, sig, now); Live(r.slots) + t.total == Live(t.slots) + r.total
  {
    hide Live, Opened, Opens, ValidIp, StartOf, With;
    var found := if ValidIp(ip) then Find(t.slots, StartOf(ip), ip) else None;
    if found.Some? {
      var s := t.slots[found.value];
      var m := s.(signals := With(s.signals, sig), last := now);
      OpenedCounts(st, m, now);
      LiveUpdate(t.slots, found.value, Opened(st, m, now));
    }
  }

  lemma {:induction false} HostCounts(st: Settings, t: Table, n: nat, sig: bv32, now: int)
    requires |t.slots| == SLOTS && n <= |t.hot|
    ensures var r := HostStep(st, t, n, sig, now); Live(r.slots) + t.total == Live(t.slots) + r.total
  {
    hide HostOne, Live;
    if n > 0 {
      HostCounts(st, t, n - 1, sig, now);
      HostOneCounts(st, HostStep(st, t, n - 1, sig, now), t.hot[n - 1], sig, now);
    }
  }

  lemma ChosenOther(slots: seq<Slot>, ip: string)
    requires |slots| == SLOTS && FreeIsEmpty(slots) && ValidIp(ip) && slots[Choose(slots, ip).index].ip != ip
    ensures Choose(slots, ip).slot.id == None && Choose(slots, ip).slot.last == 0
  {
    hide StartOf;
  }

  lemma NoteCounts(st: Settings, t: Table, e: Event)
    requires Inv(st, t) && !Ignored(e) && e.Note?
    ensures var r := Step(st, t, e); Live(r.slots) + Lost(st, t, e) + t.total == Live(t.slots) + r.total
  {
    hide Live, Opened, Opens, Choose, ValidIp, IsLog, With, UniqueIps, RuleHasId, FreeIsEmpty;
    var c := Choose(t.slots, e.ip);
    if t.slots[c.index].ip == e.ip {
      ChosenOwn(t.slots, e.ip);
    } else {
      ChosenOther(t.slots, e.ip);
    }
    var s := Marked(Refreshed(st, c.slot, e.ip, e.now), e.sig, e.now);
    OpenedCounts(st, s, e.now);
    LiveUpdate(t.slots, c.index, Opened(st, s, e.now));
  }

  // All the IDs lost in a run.
  function LostIn(st: Settings, events: seq<Event>): nat {
    if events == [] then 0
    else
      var n := |events| - 1;
      LostIn(st, events[..n]) + Lost(st, Run(st, events[..n]), events[n])
  }

  // The correlated total counts every ID ever opened: those still held and those lost.
  lemma {:induction false} TotalCounts(st: Settings, events: seq<Event>)
    requires forall k | 0 <= k < |events| :: Fits(events[k])
    ensures Run(st, events).total == Live(Run(st, events).slots) + LostIn(st, events)
  {
    hide Live, Inv, HostStep, NoteStep, Lost;
    if events == [] {
      StartLive();
    } else {
      var n := |events| - 1;
      var t, e := Run(st, events[..n]), events[n];
      TotalCounts(st, events[..n]);
      RunKeeps(st, events[..n]);
      if Ignored(e) {
        NothingLost(st, t, e);
      } else if e.Note? {
        NoteCounts(st, t, e);
      } else {
        NothingLost(st, t, e);
        HostCounts(st, t, |t.hot|, e.sig, e.now);
      }
    }
  }

  lemma NothingLost(st: Settings, t: Table, e: Event)
    requires |t.slots| == SLOTS && (Ignored(e) || e.Host?)
    ensures Lost(st, t, e) == 0
  {
  }

  lemma StartLive()
    ensures Live(Start().slots) == 0
  {
    NoneLive(Start().slots);
  }

  lemma {:induction false} NoneLive(slots: seq<Slot>)
    requires forall k | 0 <= k < |slots| :: slots[k].id == None
    ensures Live(slots) == 0
  {
    if slots != [] {
      NoneLive(slots[..|slots| - 1]);
    }
  }

  // ---------- Longer addresses ----------

  // An address that does not fit is cut when stored and never found again: noting it twice always
  // fills two slots with the same address. So one slot per address holds exactly for those that fit.
  lemma LongAddressTwice(st: Settings, ip: string, sig: bv32, now: int) returns (i: nat, j: nat)
    requires ValidIp(ip) && |ip| >= IP_LEN && sig != 0
    ensures i < SLOTS && j < SLOTS && i != j
    ensures var t := Run(st, [Note(ip, sig, now), Note(ip, sig, now)]);
      t.slots[i].ip == t.slots[j].ip == Stored(ip) != ""
  {
    hide ValidIp, NoteStep, Choose, Run;
    var t0 := Start();
    i := LongNote(st, t0, ip, sig, now, 0);
    var t1 := NoteStep(st, t0, ip, sig, now);
    j := LongNote(st, t1, ip, sig, now, if i == 0 then 1 else 0);
    RunTwo(st, Note(ip, sig, now));
  }

  lemma RunTwo(st: Settings, e: Event)
    ensures Run(st, [e, e]) == Step(st, Step(st, Start(), e), e)
  {
    hide Step;
    assert [e, e][..1] == [e] && [e][..0] == [];
    assert Run(st, [e]) == Step(st, Start(), e);
  }

  // A long address that is in no slot goes to a free one.
  lemma LongNote(st: Settings, t: Table, ip: string, sig: bv32, now: int, free: nat) returns (k: nat)
    requires |t.slots| == SLOTS && ValidIp(ip) && |ip| >= IP_LEN
    requires (forall m | 0 <= m < SLOTS :: t.slots[m].ip != ip) && free < SLOTS && t.slots[free].ip == ""
    ensures k < SLOTS && t.slots[k].ip == ""
    ensures var r := NoteStep(st, t, ip, sig, now);
      && |r.slots| == SLOTS && r.slots[k].ip == Stored(ip) != ip
      && forall m | 0 <= m < SLOTS && m != k :: r.slots[m] == t.slots[m]
  {
    hide StartOf, Correlates, IsLog, With;
    k := Choose(t.slots, ip).index;
  }
}
