/** parser.c: printing a request in the log format and parsing the line gives its fields back.
    A line may stop after any number of quoted fields, or carry more than the table knows. */
module ParserRoundTrip {
  import opened Decimals
  import opened Parser
  import Timestamp
  import opened Texts

  // What the web server prints: the quoted fields are referrer, user agent, forwarded-for, body,
  // cookie and host, already escaped.
  datatype Request = Request(
    ip: string, ident: string, user: string, stamp: string, verb: string, url: string, protocol: string,
    status: nat, bytes: nat, quoted: seq<string>)

  predicate Lacks(s: string, c: char) { forall k | 0 <= k < |s| :: s[k] != c }

  // Every quote inside is escaped and the last backslash escapes something.
  predicate Escaped(t: string) {
    if t == "" then true
    else if t[0] == '\\' then |t| >= 2 && Escaped(t[2..])
    else t[0] != '"' && Escaped(t[1..])
  }

  predicate Legal(e: Request) {
    && Lacks(e.ip, ' ') && Lacks(e.ident, ' ') && Lacks(e.user, ' ') && Lacks(e.stamp, ']')
    && Lacks(e.verb, ' ') && |e.verb| > 0 && e.verb[0] != '"'
    && Lacks(e.url, ' ') && Lacks(e.url, '"') && Lacks(e.protocol, ' ') && Lacks(e.protocol, '"')
    && (forall k | 0 <= k < |e.quoted| :: Escaped(e.quoted[k]))
  }

  // ---------- Printing ----------

  function PrintQuoted(q: seq<string>): string {
    if q == [] then "" else " \"" + Part(q[0], '"', PrintQuoted(q[1..]))
  }

  function PrintNumbers(e: Request): string { Part(Decimal(e.status), ' ', Decimal(e.bytes) + PrintQuoted(e.quoted)) }

  function PrintCall(e: Request): string {
    Part(e.verb, ' ', Part(e.url, ' ', Part(e.protocol, '"', " " + PrintNumbers(e))))
  }

  function Print(e: Request): string {
    Part(e.ip, ' ', Part(e.ident, ' ', Part(e.user, ' ', "[" + Part(e.stamp, ']', " \"" + PrintCall(e)))))
  }

  // ---------- What is expected back ----------

  function Nth(q: seq<string>, i: nat): string { if i < |q| then q[i] else "" }

  function Expected(e: Request): LogEntry {
    LogEntry(StripBrackets(e.ip), e.verb, e.url, e.protocol, e.status, e.bytes, e.bytes, Timestamp.Parse(e.stamp),
             Nth(e.quoted, 2), BodyText(Nth(e.quoted, 3)), DashIsEmpty(Nth(e.quoted, 4)), DashIsEmpty(Nth(e.quoted, 5)),
             Nth(e.quoted, 1), 0)
  }

  // ---------- Reading parts ----------

  lemma PartEnds(s: string, p: nat, text: string, stop: char, rest: string)
    requires p <= |s| && s[p..] == Part(text, stop, rest)
    ensures var q := p + |text|; q < |s| && s[p..q] == text && s[q] == stop && s[q + 1..] == rest
  {
    var q := p + |text|;
    assert s[p..q] == s[p..][..|text|] == text;
    assert s[q] == s[p..][|text|] == stop;
    assert s[q + 1..] == s[p..][|text| + 1..];
  }

  lemma PartAt(s: string, p: nat, text: string, stop: char, rest: string)
    requires p <= |s| && s[p..] == Part(text, stop, rest)
    ensures var q := p + |text|;
      && q < |s| && s[p..q] == text && s[q] == stop && s[q + 1..] == rest
      && (forall k | p <= k < q :: s[k] == text[k - p])
  {
    var q := p + |text|;
    PartEnds(s, p, text, stop, rest);
    forall k | p <= k < q
      ensures s[k] == text[k - p]
    {
      assert s[k] == s[p..q][k - p];
    }
  }

  // While the table only moves the cursor, the run is the same from further on.
  lemma {:induction false} Skim(s: string, c: Config, q: nat)
    requires c.tok <= c.p <= q <= |s| && c.state != Done && c.state != Error
    requires forall k | c.p <= k < q :: Step(s, c.(p := k)) == c.(p := k + 1)
    ensures Run(s, c) == Run(s, c.(p := q))
    decreases q - c.p
  {
    if c.p < q {
      assert c.(p := c.p) == c;
      Skim(s, c.(p := c.p + 1), q);
    }
  }

  predicate IsWordState(state: State) { state.Ip? || state.Stamp? || state.Verb? || state.Url? || state.Protocol? }

  // The characters that end a token in each state.
  predicate Ends(state: State, ch: char)
    requires IsWordState(state)
  {
    if state.Ip? || state.Verb? then ch == ' ' || ch == '\0'
    else if state.Stamp? then ch == ']'
    else ch == ' ' || ch == '"' || ch == '\0'
  }

  lemma WordMoves(s: string, c: Config)
    requires Ready(s, c) && IsWordState(c.state) && c.p < |s| && !Ends(c.state, s[c.p])
    ensures Step(s, c) == c.(p := c.p + 1)
  {
  }

  lemma WordEnds(s: string, c: Config)
    requires Ready(s, c) && c.p < |s| && IsWordState(c.state) && Ends(c.state, s[c.p])
    ensures c.state == Stamp ==> var q := SpacesQuotesEnd(s, c.p + 1);
      Step(s, c) == Config(Verb, q, q, c.out.(ts := Timestamp.Parse(s[c.tok..c.p])))
    ensures c.state == Protocol ==> var q := SpacesQuotesEnd(s, c.p);
      Step(s, c) == Config(Status, q, q, c.out.(protocol := s[c.tok..c.p]))
  {
    hide Timestamp.Parse;
  }

  // A token is read up to the character that ends it.
  lemma SkimWord(s: string, c: Config, text: string, stop: char, rest: string)
    requires c.tok == c.p <= |s| && IsWordState(c.state)
    requires s[c.p..] == Part(text, stop, rest) && forall k | 0 <= k < |text| :: !Ends(c.state, text[k])
    ensures var q := c.p + |text|;
      && q < |s| && s[c.p..q] == text && s[q] == stop && s[q + 1..] == rest
      && Run(s, c) == Run(s, c.(p := q))
  {
    hide Step, Run;
    PartAt(s, c.p, text, stop, rest);
    var q := c.p + |text|;
    forall k | c.p <= k < q
      ensures Step(s, c.(p := k)) == c.(p := k + 1)
    {
      WordMoves(s, c.(p := k));
    }
    Skim(s, c, q);
  }

  lemma RunStep(s: string, c: Config)
    requires Ready(s, c)
    ensures Run(s, c) == Run(s, Step(s, c))
  {
  }

  // ---------- The stages of a line ----------

  lemma IpStage(s: string, text: string, rest: string)
    requires s == Part(text, ' ', rest) && Lacks(text, ' ') && Lacks(text, '\0')
    ensures |text| + 1 <= |s| && s[|text| + 1..] == rest
    ensures Run(s, START) == Run(s, Config(SkipIdent, |text| + 1, 0, EMPTY.(ip := StripBrackets(text))))
  {
    hide Run;
    var c := Config(Ip, 0, 0, EMPTY);
    assert s[0..] == s && |s| > 0;
    RunStep(s, START);
    RunStep(s, c);
    assert Step(s, START) == Step(s, c);
    SkimWord(s, c, text, ' ', rest);
    RunStep(s, c.(p := |text|));
  }

  lemma {:induction false} WordEndAt(s: string, p: nat, q: nat)
    requires p <= q < |s| && s[q] == ' ' && forall k | p <= k < q :: s[k] != ' '
    ensures WordEnd(s, p) == q
    decreases q - p
  {
    if p < q {
      WordEndAt(s, p + 1, q);
    }
  }

  lemma SkipStage(s: string, c: Config, text: string, rest: string)
    requires Ready(s, c) && (c.state == SkipIdent || c.state == SkipAuth)
    requires s[c.p..] == Part(text, ' ', rest) && Lacks(text, ' ')
    ensures var q := c.p + |text| + 1;
      && q <= |s| && s[q..] == rest
      && Run(s, c) == Run(s, Config(if c.state == SkipIdent then SkipAuth else Bracket, q, c.tok, c.out))
  {
    hide Run;
    PartAt(s, c.p, text, ' ', rest);
    WordEndAt(s, c.p, c.p + |text|);
    RunStep(s, c);
  }

  // The text at p, after two characters a and b.
  lemma AfterTwo(s: string, p: nat, a: char, b: char, rest: string)
    requires p <= |s| && s[p..] == [a, b] + rest
    ensures p + 2 <= |s| && s[p] == a && s[p + 1] == b && s[p + 2..] == rest
  {
    assert s[p] == s[p..][0] && s[p + 1] == s[p..][1];
    assert s[p + 2..] == s[p..][2..];
  }

  lemma AfterOne(s: string, p: nat, a: char, rest: string)
    requires p <= |s| && s[p..] == [a] + rest
    ensures p + 1 <= |s| && s[p] == a && s[p + 1..] == rest
  {
    assert s[p] == s[p..][0];
    assert s[p + 1..] == s[p..][1..];
  }

  lemma BracketStage(s: string, c: Config, rest: string)
    requires Ready(s, c) && c.state == Bracket && s[c.p..] == "[" + rest
    ensures c.p + 1 <= |s| && s[c.p + 1..] == rest
    ensures Run(s, c) == Run(s, Config(Stamp, c.p + 1, c.p + 1, c.out))
  {
    hide Run;
    AfterOne(s, c.p, '[', rest);
    RunStep(s, c);
  }

  // Spaces and quotes at p are skipped up to the text after them.
  lemma {:induction false} SkipsTo(s: string, p: nat, blanks: string, rest: string)
    requires p <= |s| && s[p..] == blanks + rest && |rest| > 0 && rest[0] != ' ' && rest[0] != '"'
    requires forall k | 0 <= k < |blanks| :: blanks[k] == ' ' || blanks[k] == '"'
    ensures var q := p + |blanks|;
      q <= |s| && s[q..] == rest && SpacesQuotesEnd(s, p) == q
    decreases |blanks|
  {
    assert s[p] == s[p..][0];
    if blanks == "" {
      assert s[p..] == rest;
    } else {
      assert s[p + 1..] == s[p..][1..] == blanks[1..] + rest;
      SkipsTo(s, p + 1, blanks[1..], rest);
    }
  }

  lemma StampStage(s: string, c: Config, text: string, rest: string)
    requires c.tok == c.p <= |s| && c.state == Stamp && Lacks(text, ']')
    requires s[c.p..] == Part(text, ']', " \"" + rest) && |rest| > 0 && rest[0] != ' ' && rest[0] != '"'
    ensures var q := c.p + |text| + 3;
      && q <= |s| && s[q..] == rest
      && Run(s, c) == Run(s, Config(Verb, q, q, c.out.(ts := Timestamp.Parse(text))))
  {
    hide Run, Step, Timestamp.Parse, SpacesQuotesEnd, Part;
    SkimWord(s, c, text, ']', " \"" + rest);
    var p := c.p + |text|;
    SkipsTo(s, p + 1, " \"", rest);
    RunStep(s, c.(p := p));
    WordEnds(s, c.(p := p));
  }

  lemma VerbStage(s: string, c: Config, text: string, rest: string)
    requires c.tok == c.p <= |s| && c.state == Verb && Lacks(text, ' ') && Lacks(text, '\0')
    requires s[c.p..] == Part(text, ' ', rest)
    ensures var q := c.p + |text| + 1;
      q <= |s| && s[q..] == rest && Run(s, c) == Run(s, Config(Url, q, q, c.out.(verb := text)))
  {
    hide Run;
    SkimWord(s, c, text, ' ', rest);
    RunStep(s, c.(p := c.p + |text|));
  }

  lemma UrlStage(s: string, c: Config, text: string, rest: string)
    requires c.tok == c.p <= |s| && c.state == Url && Lacks(text, ' ') && Lacks(text, '"') && Lacks(text, '\0')
    requires s[c.p..] == Part(text, ' ', rest)
    ensures var q := c.p + |text| + 1;
      q <= |s| && s[q..] == rest && Run(s, c) == Run(s, Config(Protocol, q, q, c.out.(url := text)))
  {
    hide Run;
    SkimWord(s, c, text, ' ', rest);
    RunStep(s, c.(p := c.p + |text|));
  }

  lemma ProtocolStage(s: string, c: Config, text: string, rest: string)
    requires c.tok == c.p <= |s| && c.state == Protocol && Lacks(text, ' ') && Lacks(text, '"') && Lacks(text, '\0')
    requires s[c.p..] == Part(text, '"', " " + rest) && |rest| > 0 && rest[0] != ' ' && rest[0] != '"'
    ensures var q := c.p + |text| + 2;
      q <= |s| && s[q..] == rest && Run(s, c) == Run(s, Config(Status, q, q, c.out.(protocol := text)))
  {
    hide Run, Step, SpacesQuotesEnd, Part;
    SkimWord(s, c, text, '"', " " + rest);
    var p := c.p + |text|;
    assert s[p..] == [s[p]] + s[p + 1..];
    assert s[p..] == "\" " + rest;
    SkipsTo(s, p, "\" ", rest);
    RunStep(s, c.(p := p));
    WordEnds(s, c.(p := p));
  }

  // Digits add up in the status or the byte count.
  function Counted(c: Config, v: nat): LogEntry
    requires c.state == Status || c.state == Bytes
  {
    if c.state == Status then c.out.(status := v) else c.out.(bytes := v)
  }

  function Count(c: Config): nat
    requires c.state == Status || c.state == Bytes
  {
    if c.state == Status then c.out.status else c.out.bytes
  }

  lemma DigitStep(s: string, c: Config)
    requires Ready(s, c) && (c.state == Status || c.state == Bytes) && c.p < |s| && IsDigit(s[c.p])
    ensures Step(s, c) == c.(p := c.p + 1, out := Counted(c, 10 * Count(c) + DigitOf(s[c.p])))
  {
  }

  lemma NumberEnds(s: string, c: Config)
    requires Ready(s, c) && !IsDigit(CharAt(s, c.p))
    ensures var q := SpacesEnd(s, c.p);
      && (c.state == Status ==> Step(s, c) == Config(Bytes, q, q, c.out))
      && (c.state == Bytes ==> Step(s, c) == Config(if q < |s| && s[q] == '"' then SkipRef else Done, q, c.tok, c.out))
  {
  }

  lemma {:induction false} DigitsRun(s: string, c: Config, q: nat)
    requires c.tok <= c.p <= q <= |s| && (c.state == Status || c.state == Bytes)
    requires forall k | c.p <= k < q :: IsDigit(s[k])
    ensures Run(s, c) == Run(s, c.(p := q, out := Counted(c, Value(s[c.p..q], Count(c)))))
    decreases q
  {
    hide Run, Step, IsDigit, Value;
    if c.p < q {
      DigitsRun(s, c, q - 1);
      var d := c.(p := q - 1, out := Counted(c, Value(s[c.p..q - 1], Count(c))));
      ValueNext(s, c.p, q, Count(c));
      RunStep(s, d);
      DigitStep(s, d);
    } else {
      ValueNone(s, c.p, Count(c));
    }
  }

  lemma ValueNext(s: string, p: nat, q: nat, acc: nat)
    requires p < q <= |s| && forall k | p <= k < q :: IsDigit(s[k])
    ensures Value(s[p..q], acc) == 10 * Value(s[p..q - 1], acc) + DigitOf(s[q - 1])
  {
    assert s[p..q][..q - 1 - p] == s[p..q - 1];
  }

  lemma ValueNone(s: string, p: nat, acc: nat)
    requires p <= |s|
    ensures Value(s[p..p], acc) == acc
  {
    assert s[p..p] == "";
  }

  // A printed number is counted in full.
  lemma NumberRun(s: string, c: Config, n: nat, q: nat)
    requires c.tok <= c.p <= q <= |s| && (c.state == Status || c.state == Bytes) && Count(c) == 0
    requires s[c.p..q] == Decimal(n)
    ensures Run(s, c) == Run(s, c.(p := q, out := Counted(c, n)))
  {
    hide Run, Decimal;
    forall k | c.p <= k < q
      ensures IsDigit(s[k])
    {
      assert s[k] == s[c.p..q][k - c.p];
    }
    DigitsRun(s, c, q);
    ValueOfDecimal(n);
  }

  lemma OneSpace(s: string, p: nat)
    requires p + 1 < |s| && s[p] == ' ' && s[p + 1] != ' '
    ensures SpacesEnd(s, p) == p + 1
  {
    assert SpacesEnd(s, p + 1) == p + 1;
  }

  lemma StatusStage(s: string, c: Config, n: nat, rest: string)
    requires c.tok == c.p <= |s| && c.state == Status && c.out.status == 0
    requires s[c.p..] == Part(Decimal(n), ' ', rest) && |rest| > 0 && rest[0] != ' '
    ensures var q := c.p + |Decimal(n)| + 1;
      q <= |s| && s[q..] == rest && Run(s, c) == Run(s, Config(Bytes, q, q, c.out.(status := n)))
  {
    hide Decimal, Run, Part;
    PartEnds(s, c.p, Decimal(n), ' ', rest);
    var q := c.p + |Decimal(n)|;
    assert s[q + 1] == s[q + 1..][0];
    StatusRun(s, c, n, q);
  }

  lemma StatusRun(s: string, c: Config, n: nat, q: nat)
    requires c.tok == c.p <= q && q + 1 < |s| && c.state == Status && c.out.status == 0
    requires s[c.p..q] == Decimal(n) && s[q] == ' ' && s[q + 1] != ' '
    ensures Run(s, c) == Run(s, Config(Bytes, q + 1, q + 1, c.out.(status := n)))
  {
    hide Decimal, Run;
    NumberRun(s, c, n, q);
    AfterStatus(s, c.(p := q, out := Counted(c, n)));
  }

  lemma AfterStatus(s: string, d: Config)
    requires d.tok <= d.p && d.p + 1 < |s| && d.state == Status && s[d.p] == ' ' && s[d.p + 1] != ' '
    ensures Run(s, d) == Run(s, Config(Bytes, d.p + 1, d.p + 1, d.out))
  {
    hide Run, Step, SpacesEnd;
    OneSpace(s, d.p);
    NumberStops(s, d);
  }

  lemma NumberStops(s: string, d: Config)
    requires Ready(s, d) && !IsDigit(CharAt(s, d.p)) && (d.state == Status || d.state == Bytes)
    ensures var q := SpacesEnd(s, d.p);
      && (d.state == Status ==> Run(s, d) == Run(s, Config(Bytes, q, q, d.out)))
      && (d.state == Bytes ==>
            Run(s, d) == Run(s, Config(if q < |s| && s[q] == '"' then SkipRef else Done, q, d.tok, d.out)))
  {
    hide Run, Step, SpacesEnd, IsDigit;
    RunStep(s, d);
    NumberEnds(s, d);
  }

  lemma AfterBytes(s: string, d: Config, q: seq<string>)
    requires d.tok <= d.p <= |s| && d.state == Bytes && s[d.p..] == PrintQuoted(q)
    ensures Run(s, d) == if q == [] then Config(Done, d.p, d.tok, d.out)
      else Run(s, Config(SkipRef, d.p + 1, d.tok, d.out))
  {
    hide Step, SpacesEnd, Run, PrintQuoted, Part;
    NextField(s, d.p, q);
    NumberStops(s, d);
    if q == [] {
      RunStops(s, Config(Done, d.p, d.tok, d.out));
    }
  }

  lemma Follows(s: string, p: nat, text: string, rest: string)
    requires p <= |s| && s[p..] == text + rest
    ensures p + |text| <= |s| && s[p..p + |text|] == text && s[p + |text|..] == rest
  {
    assert s[p..p + |text|] == s[p..][..|text|];
    assert s[p + |text|..] == s[p..][|text|..];
  }

  lemma RunStops(s: string, c: Config)
    requires c.tok <= c.p && c.state == Done
    ensures Run(s, c) == c
  {
  }

  // ---------- Quoted fields ----------

  // The forward scan of an escaped text stops at the quote after it.
  lemma {:induction false} ForwardAt(s: string, p: nat, text: string)
    requires Escaped(text) && p + |text| < |s| && s[p..p + |text|] == text && s[p + |text|] == '"'
    ensures ForwardQuote(s, p) == p + |text|
    decreases |text|
  {
    if text != "" {
      assert s[p] == s[p..p + |text|][0];
      var n := if text[0] == '\\' then 2 else 1;
      assert s[p + n..p + |text|] == s[p..p + |text|][n..] == text[n..];
      ForwardAt(s, p + n, text[n..]);
    }
  }

  // Where the texts of the remaining quoted fields go.
  function Collect(state: State, out: LogEntry, q: seq<string>): LogEntry
    requires IsQuoted(state)
    decreases |q|
  {
    if q == [] then out
    else if state == Host then StoreText(state, out, q[0])
    else Collect(NextQuoted(state), StoreText(state, out, q[0]), q[1..])
  }

  // After a closing quote at p, the next field starts if there is one.
  lemma NextField(s: string, p: nat, q: seq<string>)
    requires p <= |s| && s[p..] == PrintQuoted(q)
    ensures q == [] ==> SpacesEnd(s, p) == p == |s|
    ensures q != [] ==> var r := p + 1;
      && r < |s| && s[p] == ' ' && s[r] == '"' && SpacesEnd(s, p) == r
      && s[r + 1..] == Part(q[0], '"', PrintQuoted(q[1..]))
  {
    if q != [] {
      AfterTwo(s, p, ' ', '"', Part(q[0], '"', PrintQuoted(q[1..])));
      assert SpacesEnd(s, p + 1) == p + 1;
    }
  }

  // A quoted field is read up to the quote that closes it.
  lemma SkimQuoted(s: string, c: Config, text: string, rest: string)
    requires c.tok == c.p <= |s| && IsQuoted(c.state) && Escaped(text)
    requires s[c.p..] == Part(text, '"', rest)
    ensures var q := c.p + |text|;
      && q < |s| && s[c.p..q] == text && s[q + 1..] == rest && ClosesField(s, c.p, q)
      && Run(s, c) == Run(s, c.(p := q))
  {
    hide Run, ClosesField, ForwardQuote;
    hide Step, Part, Escaped;
    PartAt(s, c.p, text, '"', rest);
    ForwardAt(s, c.p, text);
    ClosingQuote(s, c.p);
    var q := c.p + |text|;
    forall k | c.p <= k < q
      ensures Step(s, c.(p := k)) == c.(p := k + 1)
    {
      QuotedMoves(s, c.(p := k));
    }
    Skim(s, c, q);
  }

  lemma QuotedMoves(s: string, c: Config)
    requires Ready(s, c) && IsQuoted(c.state) && !ClosesField(s, c.tok, c.p)
    ensures Step(s, c) == c.(p := c.p + 1)
  {
  }

  lemma QuotedIsStep(s: string, c: Config)
    requires Ready(s, c) && IsQuoted(c.state)
    ensures Step(s, c) == QuotedStep(s, c)
  {
  }

  // The quoted fields that are there are stored in turn, and the run ends well.
  lemma {:induction false} QuotedStage(s: string, c: Config, q: seq<string>)
    requires c.tok == c.p <= |s| && IsQuoted(c.state) && q != []
    requires s[c.p..] == Part(q[0], '"', PrintQuoted(q[1..])) && forall k | 0 <= k < |q| :: Escaped(q[k])
    ensures Run(s, c).state == Done && Run(s, c).out == Collect(c.state, c.out, q)
    decreases |q|
  {
    hide Step, ClosesField, SpacesEnd, Escaped, PrintQuoted, StoreText, Part, Run, Collect;
    SkimQuoted(s, c, q[0], PrintQuoted(q[1..]));
    var p, out := c.p + |q[0]|, StoreText(c.state, c.out, q[0]);
    RunStep(s, c.(p := p));
    CollectOne(c.state, c.out, q);
    if c.state == Host {
      QuotedIsStep(s, c.(p := p));
      RunStops(s, Config(Done, p + 1, c.tok, out));
    } else {
      FieldCloses(s, c.(p := p), q[1..]);
      if |q| > 1 {
        NextField(s, p + 1, q[1..]);
        QuotedStage(s, Config(NextQuoted(c.state), p + 3, p + 3, out), q[1..]);
      } else {
        RunStops(s, Config(Done, p + 1, c.tok, out));
        CollectNone(NextQuoted(c.state), out);
      }
    }
  }

  lemma CollectOne(state: State, out: LogEntry, q: seq<string>)
    requires IsQuoted(state) && q != []
    ensures var o := StoreText(state, out, q[0]);
      Collect(state, out, q) == if state == Host then o else Collect(NextQuoted(state), o, q[1..])
  {
  }

  // At its closing quote a field is stored, and the next one starts if there is one.
  lemma FieldCloses(s: string, c: Config, q: seq<string>)
    requires Ready(s, c) && IsQuoted(c.state) && c.state != Host && c.p < |s| && ClosesField(s, c.tok, c.p)
    requires s[c.p + 1..] == PrintQuoted(q)
    ensures var out := StoreText(c.state, c.out, s[c.tok..c.p]);
      Step(s, c) == if q == [] then Config(Done, c.p + 1, c.tok, out)
        else Config(NextQuoted(c.state), c.p + 3, c.p + 3, out)
  {
    hide Step, ClosesField, SpacesEnd, PrintQuoted, StoreText, Part;
    QuotedIsStep(s, c);
    NextField(s, c.p + 1, q);
  }

  lemma TextEnds(s: string, p: nat, text: string, rest: string)
    requires p <= |s| && s[p..] == Part(text, '"', rest) && Escaped(text)
    ensures var q := p + |text|; q < |s| && ForwardQuote(s, p) == q && s[q + 1..] == rest
  {
    hide Escaped, Part, ForwardQuote;
    PartEnds(s, p, text, '"', rest);
    ForwardAt(s, p, text);
  }

  // Where the machine stands when the blanks after the referrer end at r.
  function AfterRef(s: string, r: nat, tok: nat, out: LogEntry): (c: Config)
    requires tok <= r
    ensures c.tok <= c.p
  {
    if r < |s| && s[r] == '"' then Config(UserAgent, r + 1, r + 1, out) else Config(Done, r, tok, out)
  }

  // The referrer ends at q and is skipped: either the line is over or the user agent starts.
  lemma RefSkipped(s: string, c: Config, q: nat)
    requires Ready(s, c) && c.state == SkipRef && c.p < q < |s| && s[c.p] == '"' && ForwardQuote(s, c.p + 1) == q
    ensures Run(s, c) == Run(s, AfterRef(s, SpacesEnd(s, q + 1), c.tok, c.out))
  {
    hide Step, SpacesEnd, ForwardQuote, Run, Rank;
    RefIsStep(s, c);
    RunStep(s, c);
  }

  lemma FieldsAfter(s: string, p: nat, tok: nat, out: LogEntry, q: seq<string>)
    requires tok <= p <= |s| && s[p..] == PrintQuoted(q) && forall k | 0 <= k < |q| :: Escaped(q[k])
    ensures var r := Run(s, AfterRef(s, SpacesEnd(s, p), tok, out));
      r.state == Done && r.out == Collect(UserAgent, out, q)
  {
    hide SpacesEnd, Escaped, PrintQuoted, Part, Run, Collect;
    NextField(s, p, q);
    if q != [] {
      QuotedStage(s, Config(UserAgent, p + 2, p + 2, out), q);
    } else {
      RunStops(s, Config(Done, p, tok, out));
      CollectNone(UserAgent, out);
    }
  }

  // The fields after the referrer are stored.
  lemma RefStage(s: string, c: Config, q: seq<string>)
    requires Ready(s, c) && c.state == SkipRef && q != [] && c.p < |s| && s[c.p] == '"'
    requires s[c.p + 1..] == Part(q[0], '"', PrintQuoted(q[1..])) && forall k | 0 <= k < |q| :: Escaped(q[k])
    ensures Run(s, c).state == Done && Run(s, c).out == Collect(UserAgent, c.out, q[1..])
  {
    hide Escaped, PrintQuoted, Part, Run, Collect, SpacesEnd, ForwardQuote, AfterRef;
    var p := c.p + 1 + |q[0]|;
    TextEnds(s, c.p + 1, q[0], PrintQuoted(q[1..]));
    RefSkipped(s, c, p);
    FieldsAfter(s, p + 1, c.tok, c.out, q[1..]);
  }

  lemma CollectNone(state: State, out: LogEntry)
    requires IsQuoted(state)
    ensures Collect(state, out, []) == out
  {
  }

  lemma RefIsStep(s: string, c: Config)
    requires Ready(s, c) && c.state == SkipRef
    ensures Step(s, c) == RefStep(s, c)
  {
  }

  // The stored texts, field by field.
  lemma CollectFields(out: LogEntry, q: seq<string>)
    requires out.userAgent == "" && out.xff == "" && out.body == "" && out.cookie == "" && out.host == ""
    ensures Collect(UserAgent, out, q) == out.(userAgent := Nth(q, 0), xff := Nth(q, 1), body := BodyText(Nth(q, 2)),
                                               cookie := DashIsEmpty(Nth(q, 3)), host := DashIsEmpty(Nth(q, 4)))
  {
    if |q| > 1 {
      var out1 := out.(userAgent := q[0]);
      var out2 := out1.(xff := q[1]);
      assert Collect(UserAgent, out, q) == Collect(Xff, out1, q[1..]) == Collect(Body, out2, q[1..][1..]);
      assert q[1..][1..] == q[2..];
      if |q| > 2 {
        var out3 := out2.(body := BodyText(q[2]));
        assert Collect(Body, out2, q[2..]) == Collect(Cookie, out3, q[2..][1..]);
        assert q[2..][1..] == q[3..];
        if |q| > 3 {
          var out4 := out3.(cookie := DashIsEmpty(q[3]));
          assert Collect(Cookie, out3, q[3..]) == Collect(Host, out4, q[3..][1..]);
          assert q[3..][1..] == q[4..];
        }
      }
    }
  }

  // A part of a line without NUL bytes has none.
  lemma PartLacks(s: string, p: nat, text: string, stop: char, rest: string)
    requires p <= |s| && s[p..] == Part(text, stop, rest) && Lacks(s, '\0')
    ensures Lacks(text, '\0')
  {
    PartAt(s, p, text, stop, rest);
    forall k | 0 <= k < |text|
      ensures text[k] != '\0'
    {
      assert s[p + k] == text[k];
    }
  }

  // From the start of the line to the request.
  lemma LeadStages(e: Request, s: string) returns (p: nat)
    requires Legal(e) && s == Print(e) && Lacks(s, '\0')
    ensures p <= |s| && s[p..] == PrintCall(e)
    ensures Run(s, START) ==
      Run(s, Config(Verb, p, p, EMPTY.(ip := StripBrackets(e.ip), ts := Timestamp.Parse(e.stamp))))
  {
    hide Run, Timestamp.Parse, Part, StripBrackets, PrintCall;
    var rest5 := PrintCall(e);
    var rest4 := "[" + Part(e.stamp, ']', " \"" + rest5);
    var rest2 := Part(e.ident, ' ', Part(e.user, ' ', rest4));
    CallStarts(e);
    assert s[0..] == s;
    PartLacks(s, 0, e.ip, ' ', rest2);
    IpStage(s, e.ip, rest2);
    var out := EMPTY.(ip := StripBrackets(e.ip));
    p := NamesStage(s, Config(SkipIdent, |e.ip| + 1, 0, out), e.ident, e.user, rest4);
    BracketStage(s, Config(Bracket, p, 0, out), Part(e.stamp, ']', " \"" + rest5));
    p := p + 1;
    StampStage(s, Config(Stamp, p, p, out), e.stamp, rest5);
    p := p + |e.stamp| + 3;
  }

  // The two names nobody reads.
  lemma NamesStage(s: string, c: Config, ident: string, user: string, rest: string) returns (p: nat)
    requires Ready(s, c) && c.state == SkipIdent && Lacks(ident, ' ') && Lacks(user, ' ')
    requires s[c.p..] == Part(ident, ' ', Part(user, ' ', rest))
    ensures c.p <= p <= |s| && s[p..] == rest && Run(s, c) == Run(s, Config(Bracket, p, c.tok, c.out))
  {
    hide Run, Part;
    SkipStage(s, c, ident, Part(user, ' ', rest));
    p := c.p + |ident| + 1;
    SkipStage(s, Config(SkipAuth, p, c.tok, c.out), user, rest);
    p := p + |user| + 1;
  }

  lemma CallStarts(e: Request)
    requires Legal(e)
    ensures var r := PrintCall(e);
      |r| > 0 && r[0] != ' ' && r[0] != '"'
    ensures var r := PrintNumbers(e);
      |r| > 0 && r[0] != ' ' && r[0] != '"'
  {
    assert PrintCall(e)[0] == e.verb[0];
    assert PrintNumbers(e)[0] == Decimal(e.status)[0];
  }

  // The request.
  lemma CallStages(e: Request, s: string, c: Config) returns (p: nat)
    requires Legal(e) && c.state == Verb && c.tok == c.p <= |s| && s[c.p..] == PrintCall(e) && Lacks(s, '\0')
    ensures p <= |s| && s[p..] == PrintNumbers(e)
    ensures Run(s, c) == Run(s, Config(Status, p, p, c.out.(verb := e.verb, url := e.url, protocol := e.protocol)))
  {
    hide Run, Part, PrintNumbers;
    var rest3 := " " + PrintNumbers(e);
    var rest2 := Part(e.protocol, '"', rest3);
    var rest1 := Part(e.url, ' ', rest2);
    CallStarts(e);
    PartLacks(s, c.p, e.verb, ' ', rest1);
    VerbStage(s, c, e.verb, rest1);
    p := c.p + |e.verb| + 1;
    PartLacks(s, p, e.url, ' ', rest2);
    UrlStage(s, Config(Url, p, p, c.out.(verb := e.verb)), e.url, rest2);
    p := p + |e.url| + 1;
    PartLacks(s, p, e.protocol, '"', rest3);
    ProtocolStage(s, Config(Protocol, p, p, c.out.(verb := e.verb, url := e.url)), e.protocol, PrintNumbers(e));
    p := p + |e.protocol| + 2;
  }

  // The numbers and the quoted fields.
  lemma TailStages(e: Request, s: string, c: Config)
    requires Legal(e) && c.state == Status && c.tok == c.p <= |s| && s[c.p..] == PrintNumbers(e)
    requires c.out.status == c.out.bytes == 0
    ensures var r, out := Run(s, c), c.out.(status := e.status, bytes := e.bytes);
      && r.state == Done
      && r.out == Collect(UserAgent, out, if e.quoted == [] then [] else e.quoted[1..])
  {
    hide Run, Part, Decimal, PrintQuoted, SpacesEnd, Collect, Escaped;
    var rest := Decimal(e.bytes) + PrintQuoted(e.quoted);
    assert rest[0] == Decimal(e.bytes)[0];
    StatusStage(s, c, e.status, rest);
    var p := c.p + |Decimal(e.status)| + 1;
    BytesStage(s, Config(Bytes, p, p, c.out.(status := e.status)), e.bytes, e.quoted);
  }

  // The byte count and the quoted fields.
  lemma BytesStage(s: string, d: Config, n: nat, q: seq<string>)
    requires d.tok == d.p <= |s| && d.state == Bytes && d.out.bytes == 0
    requires s[d.p..] == Decimal(n) + PrintQuoted(q) && forall k | 0 <= k < |q| :: Escaped(q[k])
    ensures Run(s, d).state == Done
    ensures Run(s, d).out == Collect(UserAgent, d.out.(bytes := n), if q == [] then [] else q[1..])
  {
    hide Run, Decimal, PrintQuoted, Collect, Escaped;
    var p := d.p + |Decimal(n)|;
    Follows(s, d.p, Decimal(n), PrintQuoted(q));
    NumberRun(s, d, n, p);
    QuotedTail(s, d.(p := p, out := Counted(d, n)), q);
  }

  lemma QuotedTail(s: string, d: Config, q: seq<string>)
    requires d.tok <= d.p <= |s| && d.state == Bytes && s[d.p..] == PrintQuoted(q)
    requires forall k | 0 <= k < |q| :: Escaped(q[k])
    ensures Run(s, d).state == Done && Run(s, d).out == Collect(UserAgent, d.out, if q == [] then [] else q[1..])
  {
    hide Run, PrintQuoted, Collect, Escaped;
    AfterBytes(s, d, q);
    if q == [] {
      CollectNone(UserAgent, d.out);
    } else {
      QuotedFrom(s, Config(SkipRef, d.p + 1, d.tok, d.out), q);
    }
  }

  lemma QuotedFrom(s: string, c: Config, q: seq<string>)
    requires c.state == SkipRef && c.tok < c.p && q != [] && c.p - 1 <= |s|
    requires s[c.p - 1..] == PrintQuoted(q) && forall k | 0 <= k < |q| :: Escaped(q[k])
    ensures Run(s, c).state == Done && Run(s, c).out == Collect(UserAgent, c.out, q[1..])
  {
    hide Run, Part, PrintQuoted, SpacesEnd, Collect, Escaped;
    NextField(s, c.p - 1, q);
    RefStage(s, c, q);
  }

  // Printing and parsing: the fields come back, unless a check of the parser rejects them.
  lemma RoundTrip(env: Env, e: Request)
    requires Legal(e) && !IsTampered(Print(e)) && !Contains(Print(e), "sshd[") && !Contains(Print(e), "sudo[")
    ensures Parse(env, Print(e)) ==
            if e.ip == "" || Timestamp.Parse(e.stamp) == 0 || e.url == "" || e.status < 100 || e.status > 599
              then Malformed
            else Parsed(ApplyForwarded(env, Expected(e)))
  {
    hide Run, Timestamp.Parse, Collect, ApplyForwarded, PrintCall, PrintNumbers, Contains;
    var s := Print(e);
    var p := LeadStages(e, s);
    var c := Config(Verb, p, p, EMPTY.(ip := StripBrackets(e.ip), ts := Timestamp.Parse(e.stamp)));
    p := CallStages(e, s, c);
    c := Config(Status, p, p, c.out.(verb := e.verb, url := e.url, protocol := e.protocol));
    TailStages(e, s, c);
    var rest := if e.quoted == [] then [] else e.quoted[1..];
    CollectFields(c.out.(status := e.status, bytes := e.bytes), rest);
  }

  // A request stamped with an instant in any zone comes back with that instant.
  lemma StampedRoundTrip(env: Env, e: Request, t: int, z: Timestamp.Zone)
    requires Legal(e) && !IsTampered(Print(e)) && !Contains(Print(e), "sshd[") && !Contains(Print(e), "sudo[")
    requires Timestamp.IsZone(z) && t + Timestamp.Offset(z) > 0 && e.stamp == Timestamp.Render(t, z)
    requires e.ip != "" && e.url != "" && 100 <= e.status <= 599 && t != 0
    ensures Parse(env, Print(e)).Parsed? && Parse(env, Print(e)).entry.ts == t
  {
    hide Timestamp.Parse, Timestamp.Render, Parse, Legal, Print, Contains, IsTampered;
    RoundTrip(env, e);
    Timestamp.ParseOfRender(t, z);
  }

  // A text can stand between quotes exactly when it is escaped.
  lemma {:induction false} EscapedExactly(text: string, p: nat)
    requires p <= |text|
    ensures ForwardQuote(text + "\"", p) == |text| <==> Escaped(text[p..])
    decreases |text| - p
  {
    var s := text + "\"";
    if p < |text| {
      if text[p] == '\\' {
        if p + 2 <= |text| {
          EscapedExactly(text, p + 2);
          assert text[p..][2..] == text[p + 2..];
        }
      } else if text[p] != '"' {
        EscapedExactly(text, p + 1);
        assert text[p..][1..] == text[p + 1..];
      }
    }
  }

  // What a server does to a raw text before it prints it between quotes.
  function Escape(t: string): string {
    if t == "" then ""
    else (if t[0] == '"' || t[0] == '\\' then ['\\', t[0]] else [t[0]]) + Escape(t[1..])
  }

  lemma {:induction false} EscapeIsEscaped(t: string)
    ensures Escaped(Escape(t))
  {
    if t != "" {
      EscapeIsEscaped(t[1..]);
      var n := if t[0] == '"' || t[0] == '\\' then 2 else 1;
      assert Escape(t)[n..] == Escape(t[1..]);
    }
  }
}
