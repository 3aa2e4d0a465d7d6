/** parser.c: parse_timestamp, and the calendar it needs. The reference calendar steps from one
    day to the next; timegm is the closed formula of the C library, linear in day, hour, minute
    and second. An instant is a number of seconds since 1970. */
module Timestamp {
  import opened Decimals
  import opened Texts

  const MONTHS: seq<string> := ["Jan", "Feb", "Mar", "Apr", "May", "Jun", "Jul", "Aug", "Sep", "Oct", "Nov", "Dec"]

  // ---------- The reference calendar ----------

  // A month counts from 0, a day from 1.
  datatype Date = Date(year: int, month: nat, day: nat)

  predicate IsLeap(y: int) { y % 4 == 0 && (y % 100 != 0 || y % 400 == 0) }

  function MonthLength(y: int, m: nat): nat {
    if m == 1 then (if IsLeap(y) then 29 else 28)
    else if m == 3 || m == 5 || m == 8 || m == 10 then 30
    else 31
  }

  predicate IsDate(d: Date) { d.month < 12 && 1 <= d.day <= MonthLength(d.year, d.month) }

  function NextDay(d: Date): (r: Date)
    requires IsDate(d)
    ensures IsDate(r)
  {
    if d.day < MonthLength(d.year, d.month) then Date(d.year, d.month, d.day + 1)
    else if d.month < 11 then Date(d.year, d.month + 1, 1)
    else Date(d.year + 1, 0, 1)
  }

  // The date n days after 1 January 1970.
  function DateOf(n: nat): (d: Date)
    ensures IsDate(d) && d.year >= 1970
  {
    if n == 0 then Date(1970, 0, 1) else NextDay(DateOf(n - 1))
  }

  // ---------- timegm ----------

  // Leap days before 1 January of year y, counted from year 1.
  function LeapsBefore(y: int): int { (y - 1) / 4 - (y - 1) / 100 + (y - 1) / 400 }

  // Days from 1 January 1970 to 1 January of year y.
  function YearStart(y: int): int { 365 * (y - 1970) + LeapsBefore(y) - LeapsBefore(1970) }

  function MonthStart(y: int, m: nat): nat
    requires m <= 12
  {
    if m == 0 then 0 else MonthStart(y, m - 1) + MonthLength(y, m - 1)
  }

  function DayNumber(year: int, month: nat, day: int): int
    requires month < 12
  {
    YearStart(year) + MonthStart(year, month) + day - 1
  }

  // The C library's timegm; fields out of range carry over.
  function Timegm(year: int, month: nat, day: int, hour: int, minute: int, second: int): int
    requires month < 12
  {
    DayNumber(year, month, day) * 86400 + hour * 3600 + minute * 60 + second
  }

  lemma CarryFour(x: int)
    ensures x / 4 == (x - 1) / 4 + (if x % 4 == 0 then 1 else 0)
  {
  }

  lemma CarryHundred(x: int)
    ensures x / 100 == (x - 1) / 100 + (if x % 100 == 0 then 1 else 0)
    ensures x % 100 == 0 ==> x % 4 == 0
  {
  }

  lemma CarryFourHundred(x: int)
    ensures x / 400 == (x - 1) / 400 + (if x % 400 == 0 then 1 else 0)
    ensures x % 400 == 0 ==> x % 100 == 0
  {
  }

  // A leap year adds one leap day.
  lemma LeapStep(y: int)
    ensures LeapsBefore(y + 1) == LeapsBefore(y) + (if IsLeap(y) then 1 else 0)
  {
    CarryFour(y);
    CarryHundred(y);
    CarryFourHundred(y);
  }

  lemma YearLength(y: int)
    ensures MonthStart(y, 12) == if IsLeap(y) then 366 else 365
  {
    assert MonthStart(y, 1) == 31;
    assert MonthStart(y, 2) == 31 + MonthLength(y, 1);
    assert MonthStart(y, 4) == MonthStart(y, 2) + 61;
    assert MonthStart(y, 6) == MonthStart(y, 4) + 61;
    assert MonthStart(y, 8) == MonthStart(y, 6) + 62;
    assert MonthStart(y, 10) == MonthStart(y, 8) + 61;
    assert MonthStart(y, 12) == MonthStart(y, 10) + 61;
  }

  // One day on in the reference calendar is one more in the formula.
  lemma DayNumberStep(d: Date)
    requires IsDate(d)
    ensures var e := NextDay(d);
      DayNumber(e.year, e.month, e.day) == DayNumber(d.year, d.month, d.day) + 1
  {
    LeapStep(d.year);
    YearLength(d.year);
    if d.month == 11 && d.day == 31 {
      assert MonthStart(d.year, 12) == MonthStart(d.year, 11) + 31;
    }
  }

  // The formula inverts the calendar.
  lemma {:induction false} DayNumberOfDate(n: nat)
    ensures var d := DateOf(n);
      DayNumber(d.year, d.month, d.day) == n
  {
    if n > 0 {
      DayNumberOfDate(n - 1);
      DayNumberStep(DateOf(n - 1));
    }
  }

  // ---------- parse_timestamp ----------

  function Lower(c: char): char { if 'A' <= c <= 'Z' then (c as int + 32) as char else c }

  predicate EqualIgnoringCase(a: string, b: string) {
    |a| == |b| && forall k | 0 <= k < |a| :: Lower(a[k]) == Lower(b[k])
  }

  // The first month from i on whose name this is, or 12.
  function MonthFrom(name: string, i: nat): (r: nat)
    requires i <= 12
    ensures r <= 12
    decreases 12 - i
  {
    if i == 12 || EqualIgnoringCase(name, MONTHS[i]) then i else MonthFrom(name, i + 1)
  }

  // The end of the month name: at most three characters, stopping at a slash.
  function NameEnd(s: string, p: nat, left: nat): (r: nat)
    requires p <= |s|
    ensures p <= r <= |s|
    decreases left
  {
    if left > 0 && p < |s| && s[p] != '/' && s[p] != '\0' then NameEnd(s, p + 1, left - 1) else p
  }

  function SpacesEnd(s: string, p: nat): (r: nat)
    requires p <= |s|
    ensures p <= r <= |s|
    decreases |s| - p
  {
    if p < |s| && (s[p] == ' ' || s[p] == '\t') then SpacesEnd(s, p + 1) else p
  }

  // The seconds east of Greenwich written at p, or 0 when there is no numeric zone.
  function ZoneAt(s: string, p: nat): int
    requires p <= |s|
  {
    if p + 5 <= |s| && (s[p] == '+' || s[p] == '-')
       && IsDigit(s[p + 1]) && IsDigit(s[p + 2]) && IsDigit(s[p + 3]) && IsDigit(s[p + 4]) then
      var hh := DigitOf(s[p + 1]) * 10 + DigitOf(s[p + 2]);
      var mm := DigitOf(s[p + 3]) * 10 + DigitOf(s[p + 4]);
      (if s[p] == '+' then 1 else -1) * (hh * 3600 + mm * 60)
    else 0
  }

  // A number ended by a given character: its value and the position after that character.
  datatype Field = Missing | Field(value: nat, next: nat)

  function NumberField(s: string, p: nat, stop: char): (r: Field)
    requires p <= |s|
    ensures r.Field? ==> p < r.next <= |s|
  {
    var q := DigitsEnd(s, p);
    if q < |s| && s[q] == stop then Field(Value(s[p..q], 0), q + 1) else Missing
  }

  function MonthField(s: string, p: nat): (r: Field)
    requires p <= |s|
    ensures r.Field? ==> p < r.next <= |s| && r.value < 12
  {
    var q := NameEnd(s, p, 3);
    if q < |s| && s[q] == '/' && MonthFrom(s[p..q], 0) < 12 then Field(MonthFrom(s[p..q], 0), q + 1) else Missing
  }

  // What parse_timestamp returns; 0 stands for an unreadable time stamp.
  function Parse(s: string): int {
    if |s| < 20 then 0 else
    var day := NumberField(s, 0, '/');
    if day.Missing? then 0 else
    var month := MonthField(s, day.next);
    if month.Missing? then 0 else
    var year := NumberField(s, month.next, ':');
    if year.Missing? then 0 else
    var hour := NumberField(s, year.next, ':');
    if hour.Missing? then 0 else
    var minute := NumberField(s, hour.next, ':');
    if minute.Missing? then 0 else
    var q := DigitsEnd(s, minute.next);
    var second := Value(s[minute.next..q], 0);
    var local := Timegm(year.value, month.value, day.value, hour.value, minute.value, second);
    if local <= 0 then 0 else local - ZoneAt(s, SpacesEnd(s, q))
  }

  method ReadNumber(s: string, p: nat, stop: char) returns (r: Field)
    requires p <= |s|
    ensures r == NumberField(s, p, stop)
  {
    var v, q := ReadDigits(s, p);
    r := if q < |s| && s[q] == stop then Field(v, q + 1) else Missing;
  }

  method ReadMonth(s: string, start: nat) returns (r: Field)
    requires start <= |s|
    ensures r == MonthField(s, start)
  {
    var p, left := start, 3;
    while left > 0 && p < |s| && s[p] != '/' && s[p] != '\0'
      invariant start <= p <= |s| && 0 <= left && NameEnd(s, start, 3) == NameEnd(s, p, left)
      decreases left
    {
      p, left := p + 1, left - 1;
    }
    if p >= |s| || s[p] != '/' {
      return Missing;
    }
    var month := 0;
    while month < 12 && !EqualIgnoringCase(s[start..p], MONTHS[month])
      invariant 0 <= month <= 12 && MonthFrom(s[start..p], 0) == MonthFrom(s[start..p], month)
    {
      month := month + 1;
    }
    r := if month < 12 then Field(month, p + 1) else Missing;
  }

  // parse_timestamp
  method ParseTimestamp(s: string) returns (utc: int)
    ensures utc == Parse(s)
  {
    if |s| < 20 { return 0; }
    var day := ReadNumber(s, 0, '/');
    if day.Missing? { return 0; }
    var month := ReadMonth(s, day.next);
    if month.Missing? { return 0; }
    var year := ReadNumber(s, month.next, ':');
    if year.Missing? { return 0; }
    var hour := ReadNumber(s, year.next, ':');
    if hour.Missing? { return 0; }
    var minute := ReadNumber(s, hour.next, ':');
    if minute.Missing? { return 0; }
    var second, p := ReadDigits(s, minute.next);
    utc := Timegm(year.value, month.value, day.value, hour.value, minute.value, second);
    if utc <= 0 { return 0; }
    ghost var q := p;
    while p < |s| && (s[p] == ' ' || s[p] == '\t')
      invariant q <= p <= |s| && SpacesEnd(s, q) == SpacesEnd(s, p)
    {
      p := p + 1;
    }
    utc := utc - ZoneAt(s, p);
  }

  // ---------- Rendering and reading back ----------

  datatype Zone = Zone(east: bool, hours: nat, minutes: nat)

  predicate IsZone(z: Zone) { z.hours < 100 && z.minutes < 100 }

  function Offset(z: Zone): int { (if z.east then 1 else -1) * (z.hours * 3600 + z.minutes * 60) }

  function RenderZone(z: Zone): (r: string)
    requires IsZone(z)
    ensures |r| == 6
  {
    (if z.east then " +" else " -") + TwoDigits(z.hours) + TwoDigits(z.minutes)
  }

  // The pieces of the log format, each followed by what comes after it.
  function RenderClock(second: nat, z: Zone): string
    requires second < 86400 && IsZone(z)
  {
    Part(TwoDigits(second / 3600), ':', Part(TwoDigits(second / 60 % 60), ':', TwoDigits(second % 60) + RenderZone(z)))
  }

  function RenderDate(d: Date, rest: string): string
    requires IsDate(d) && d.year >= 0
  {
    Part(TwoDigits(d.day), '/', Part(MONTHS[d.month], '/', Part(Decimal(d.year), ':', rest)))
  }

  // The instant t in the log format, as a clock in the zone shows it.
  function Render(t: int, z: Zone): string
    requires IsZone(z) && t + Offset(z) >= 0
  {
    var local := t + Offset(z);
    RenderDate(DateOf(local / 86400), RenderClock(local % 86400, z))
  }

  lemma {:induction false} DigitsEndAt(s: string, p: nat, q: nat)
    requires p <= q <= |s| && (forall k | p <= k < q :: IsDigit(s[k])) && (q < |s| ==> !IsDigit(s[q]))
    ensures DigitsEnd(s, p) == q
    decreases q - p
  {
    if p < q {
      DigitsEndAt(s, p + 1, q);
    }
  }

  predicate AllDigits(s: string) { forall k | 0 <= k < |s| :: IsDigit(s[k]) }

  // A printed number followed by its stop character is read, and the rest is left to read.
  lemma NumberFieldOf(s: string, p: nat, digits: string, stop: char, rest: string)
    requires !IsDigit(stop) && AllDigits(digits)
    requires p <= |s| && s[p..] == Part(digits, stop, rest)
    ensures NumberField(s, p, stop) == Field(Value(digits, 0), p + |digits| + 1)
    ensures p + |digits| + 1 <= |s| && s[p + |digits| + 1..] == rest
  {
    var q := p + |digits|;
    assert s[p..q] == s[p..][..|digits|] == digits;
    assert s[q] == s[p..][|digits|] == stop;
    assert s[q + 1..] == s[p..][|digits| + 1..];
    forall k | p <= k < q
      ensures IsDigit(s[k])
    {
      assert s[k] == s[p..q][k - p];
    }
    DigitsEndAt(s, p, q);
  }

  lemma MonthFieldOf(s: string, p: nat, m: nat, rest: string)
    requires m < 12 && p <= |s| && s[p..] == Part(MONTHS[m], '/', rest)
    ensures MonthField(s, p) == Field(m, p + 4)
    ensures p + 4 <= |s| && s[p + 4..] == rest
  {
    hide Part, MonthFrom, NameEnd, EqualIgnoringCase;
    MonthNamesDiffer(m);
    MonthFromName(m, 0);
    MonthLetters(m);
    NameText(s, p, MONTHS[m], rest);
    NameEnds(s, p);
  }

  lemma MonthLetters(m: nat)
    requires m < 12
    ensures |MONTHS[m]| == 3 && '/' !in MONTHS[m] && '\0' !in MONTHS[m]
  {
  }

  // A name of three letters and the slash after it.
  lemma NameText(s: string, p: nat, name: string, rest: string)
    requires |name| == 3 && '/' !in name && '\0' !in name && p <= |s| && s[p..] == Part(name, '/', rest)
    ensures p + 4 <= |s| && s[p..p + 3] == name && s[p + 3] == '/' && s[p + 4..] == rest
    ensures forall k | p <= k < p + 3 :: s[k] != '/' && s[k] != '\0'
  {
    assert s[p..p + 3] == s[p..][..3] == name;
    assert s[p + 3] == s[p..][3] == '/';
    assert s[p + 4..] == s[p..][4..];
    forall k | p <= k < p + 3
      ensures s[k] == name[k - p]
    {
      assert s[k] == s[p..p + 3][k - p];
    }
  }

  lemma NameEnds(s: string, p: nat)
    requires p + 3 < |s| && forall k | p <= k < p + 3 :: s[k] != '/' && s[k] != '\0'
    ensures NameEnd(s, p, 3) == p + 3
  {
    assert NameEnd(s, p + 1, 2) == p + 3;
  }

  lemma MonthNamesDiffer(m: nat)
    requires m < 12
    ensures forall i | 0 <= i < m :: !EqualIgnoringCase(MONTHS[m], MONTHS[i])
  {
    forall i | 0 <= i < m
      ensures !EqualIgnoringCase(MONTHS[m], MONTHS[i])
    {
      var a, b := MONTHS[m], MONTHS[i];
      assert Lower(a[0]) != Lower(b[0]) || Lower(a[1]) != Lower(b[1]) || Lower(a[2]) != Lower(b[2]);
    }
  }

  lemma {:induction false} MonthFromName(m: nat, i: nat)
    requires i <= m < 12 && forall j | 0 <= j < m :: !EqualIgnoringCase(MONTHS[m], MONTHS[j])
    ensures MonthFrom(MONTHS[m], i) == m
    decreases m - i
  {
    if i < m {
      MonthFromName(m, i + 1);
    }
  }

  // The seconds and the zone are read from the end of the stamp.
  lemma TailOf(s: string, p: nat, sec: nat, z: Zone)
    requires p <= |s| && sec < 60 && IsZone(z) && s[p..] == TwoDigits(sec) + RenderZone(z)
    ensures DigitsEnd(s, p) == p + 2
    ensures Value(s[p..p + 2], 0) == sec
    ensures SpacesEnd(s, p + 2) == p + 3
    ensures ZoneAt(s, p + 3) == Offset(z)
  {
    var tail := s[p..];
    assert forall k | 0 <= k < |tail| :: s[p + k] == tail[k];
    assert s[p] == tail[0] && s[p + 1] == tail[1] && s[p + 2] == tail[2] && s[p + 3] == tail[3];
    assert s[p + 4] == tail[4] && s[p + 5] == tail[5] && s[p + 6] == tail[6] && s[p + 7] == tail[7];
    assert s[p..p + 2] == TwoDigits(sec);
    ValueOfTwoDigits(sec);
    DigitsEndAt(s, p, p + 2);
    ValueOfTwoDigits(z.hours);
    ValueOfTwoDigits(z.minutes);
  }

  // timegm of the local calendar fields is the local time.
  lemma TimegmOf(local: nat)
    ensures var d, clock := DateOf(local / 86400), local % 86400;
      Timegm(d.year, d.month, d.day, clock / 3600, clock / 60 % 60, clock % 60) == local
  {
    DayNumberOfDate(local / 86400);
  }

  // The date part of a rendering.
  lemma DateFields(s: string, date: Date, rest: string) returns (p: nat)
    requires IsDate(date) && date.year >= 0 && s == RenderDate(date, rest)
    ensures NumberField(s, 0, '/') == Field(date.day, 3) && |s| >= 3 && MonthField(s, 3) == Field(date.month, 7)
    ensures |s| >= 7 && NumberField(s, 7, ':') == Field(date.year, p) && 8 <= p <= |s| && s[p..] == rest
  {
    hide NumberField, MonthField, Part, Decimal, TwoDigits;
    var d, y := TwoDigits(date.day), Decimal(date.year);
    var rest3 := Part(y, ':', rest);
    var rest2 := Part(MONTHS[date.month], '/', rest3);
    assert s[0..] == s;
    NumberFieldOf(s, 0, d, '/', rest2);
    MonthFieldOf(s, 3, date.month, rest3);
    NumberFieldOf(s, 7, y, ':', rest);
    p := 8 + |y|;
    ValueOfTwoDigits(date.day);
    ValueOfDecimal(date.year);
  }

  // The clock part of a rendering.
  lemma ClockFields(s: string, p: nat, clock: nat, z: Zone)
    requires p <= |s| && clock < 86400 && IsZone(z) && s[p..] == RenderClock(clock, z)
    ensures NumberField(s, p, ':') == Field(clock / 3600, p + 3) && p + 14 <= |s|
    ensures NumberField(s, p + 3, ':') == Field(clock / 60 % 60, p + 6)
    ensures DigitsEnd(s, p + 6) == p + 8 && Value(s[p + 6..p + 8], 0) == clock % 60
    ensures SpacesEnd(s, p + 8) == p + 9 && ZoneAt(s, p + 9) == Offset(z)
  {
    hide NumberField, ZoneAt, SpacesEnd, DigitsEnd, Offset, Part, TwoDigits;
    var h, mi := TwoDigits(clock / 3600), TwoDigits(clock / 60 % 60);
    var rest6 := TwoDigits(clock % 60) + RenderZone(z);
    var rest5 := Part(mi, ':', rest6);
    NumberFieldOf(s, p, h, ':', rest5);
    NumberFieldOf(s, p + 3, mi, ':', rest6);
    TailOf(s, p + 6, clock % 60, z);
    ValueOfTwoDigits(clock / 3600);
    ValueOfTwoDigits(clock / 60 % 60);
  }

  // Reading a rendering gives the instant back, exactly when its local time is past the epoch;
  // at the epoch the answer is 0, which means unreadable.
  lemma ParseOfRender(t: int, z: Zone)
    requires IsZone(z) && t + Offset(z) >= 0
    ensures Parse(Render(t, z)) == if t + Offset(z) > 0 then t else 0
  {
    hide NumberField, MonthField, ZoneAt, SpacesEnd, DigitsEnd, Offset, RenderDate, RenderClock, Timegm, DateOf, Value;
    var local := t + Offset(z);
    var date, clock := DateOf(local / 86400), local % 86400;
    var s := Render(t, z);
    var p := DateFields(s, date, RenderClock(clock, z));
    ClockFields(s, p, clock, z);
    TimegmOf(local);
  }

  // Two clocks showing the same instant in different zones are read as the same time.
  lemma ZonesAgree(t: int, z1: Zone, z2: Zone)
    requires IsZone(z1) && IsZone(z2) && t + Offset(z1) > 0 && t + Offset(z2) > 0
    ensures Parse(Render(t, z1)) == Parse(Render(t, z2)) == t
  {
    ParseOfRender(t, z1);
    ParseOfRender(t, z2);
  }
}
