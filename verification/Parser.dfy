/** parser.c: parse_log_line. A table of states driven one character at a time, with two ways of
    finding the quote that closes a field: a forward scan that skips escaped pairs and a backward
    count of backslashes. String views are values; an unset view is the empty string. */
module Parser {
  import opened Decimals
  import Timestamp
  import opened Texts

  // ---------- Data ----------

  datatype LogEntry = LogEntry(
    ip: string, verb: string, url: string, protocol: string, status: nat, bytes: nat, respBytes: nat,
    ts: int, xff: string, body: string, cookie: string, host: string, userAgent: string,
    responseMs: int)

  const EMPTY := LogEntry("", "", "", "", 0, 0, 0, 0, "", "", "", "", "", 0)

  datatype State =
    | IpStart | Ip | SkipIdent | SkipAuth | Bracket | Stamp | Verb | Url | Protocol | Status | Bytes
    | SkipRef | UserAgent | Xff | Body | Cookie | Host | Done | Error

  // The state of the loop: the cursor, the start of the token being read and the output.
  datatype Config = Config(state: State, p: nat, tok: nat, out: LogEntry)

  datatype Outcome = Parsed(entry: LogEntry) | Malformed | Tampered

  // What lies outside this file: the two syslog formats, the address syntax check and the
  // configured list of trusted proxies.
  datatype Env = Env(
    sshd: string -> Outcome, sudo: string -> Outcome, validIp: string -> bool, trusted: string -> bool)

  const IP_STR_LEN := 46

  // ---------- Scans ----------

  function SpacesEnd(s: string, p: nat): (r: nat)
    requires p <= |s|
    ensures p <= r <= |s|
    decreases |s| - p
  {
    if p < |s| && s[p] == ' ' then SpacesEnd(s, p + 1) else p
  }

  function SpacesQuotesEnd(s: string, p: nat): (r: nat)
    requires p <= |s|
    ensures p <= r <= |s|
    decreases |s| - p
  {
    if p < |s| && (s[p] == ' ' || s[p] == '"') then SpacesQuotesEnd(s, p + 1) else p
  }

  function WordEnd(s: string, p: nat): (r: nat)
    requires p <= |s|
    ensures p <= r <= |s|
    decreases |s| - p
  {
    if p < |s| && s[p] != ' ' then WordEnd(s, p + 1) else p
  }

  // The forward scan for a closing quote: a backslash takes the next character with it.
  function ForwardQuote(s: string, p: nat): (r: nat)
    requires p <= |s|
    ensures p <= r <= |s|
    decreases |s| - p
  {
    if p >= |s| || s[p] == '"' then p
    else if s[p] == '\\' && p + 1 < |s| then ForwardQuote(s, p + 2)
    else ForwardQuote(s, p + 1)
  }

  // The number of backslashes in a row that end at p, counted back to the start of the field.
  function Backslashes(s: string, start: nat, p: nat): (r: nat)
    requires start <= p <= |s|
    decreases p
  {
    if p > start && s[p - 1] == '\\' then 1 + Backslashes(s, start, p - 1) else 0
  }

  // is_unescaped_closing_quote
  predicate ClosesField(s: string, start: nat, p: nat)
    requires start <= p <= |s|
  {
    p < |s| && s[p] == '"' && Backslashes(s, start, p) % 2 == 0
  }

  // The first position from p on that the backward test takes for the closing quote.
  function BackwardQuote(s: string, start: nat, p: nat): (r: nat)
    requires start <= p <= |s|
    ensures p <= r <= |s|
    ensures forall k | p <= k < r :: !ClosesField(s, start, k)
    ensures r < |s| ==> ClosesField(s, start, r)
    decreases |s| - p
  {
    if p >= |s| || ClosesField(s, start, p) then p else BackwardQuote(s, start, p + 1)
  }

  // The two ways of finding the closing quote agree on every text.
  lemma {:induction false} QuotesAgree(s: string, start: nat, p: nat)
    requires start <= p <= |s| && Backslashes(s, start, p) % 2 == 0
    ensures ForwardQuote(s, p) == BackwardQuote(s, start, p)
    decreases |s| - p
  {
    if p < |s| && s[p] != '"' {
      if s[p] == '\\' && p + 1 < |s| {
        assert Backslashes(s, start, p + 1) == 1 + Backslashes(s, start, p);
        assert !ClosesField(s, start, p + 1);
        QuotesAgree(s, start, p + 2);
      } else {
        assert s[p] != '\\' ==> Backslashes(s, start, p + 1) == 0;
        if p + 1 < |s| {
          QuotesAgree(s, start, p + 1);
        }
      }
    }
  }

  lemma ClosingQuote(s: string, start: nat)
    requires start <= |s|
    ensures ForwardQuote(s, start) == BackwardQuote(s, start, start)
  {
    QuotesAgree(s, start, start);
  }

  // ---------- The state table ----------

  // The character at the cursor, or NUL at the end of the line.
  function CharAt(s: string, p: nat): char { if p < |s| then s[p] else '\0' }

  // strip_ipv6_brackets
  function StripBrackets(t: string): string {
    if |t| >= 2 && t[0] == '[' && t[|t| - 1] == ']' && 0 < |t| - 2 < IP_STR_LEN then t[1..|t| - 1] else t
  }

  function DashIsEmpty(t: string): string { if t == "-" then "" else t }

  function BodyText(t: string): string { if t == "-" || (|t| > 0 && t[0] == '/') then "" else t }

  // A configuration the loop can be in before it stops.
  predicate Ready(s: string, c: Config) { c.tok <= c.p <= |s| && c.state != Done && c.state != Error }

  // How close a state is to the end of the table; it breaks ties when the cursor stands still.
  function Rank(state: State): nat {
    match state
    case Status => 3
    case Bytes => 2
    case SkipRef => 1
    case Done => 0
    case Error => 0
    case _ => 4
  }

  // A field has ended at p: the next one starts at a quote after spaces.
  function AfterField(s: string, p: nat, tok: nat, next: State, out: LogEntry): (r: Config)
    requires tok <= p < |s|
    ensures r.p > p && r.tok <= r.p
  {
    var q := SpacesEnd(s, p + 1);
    if q < |s| && s[q] == '"' then Config(next, q + 1, q + 1, out) else Config(Done, q, tok, out)
  }

  function Move(c: Config): Config { c.(p := c.p + 1) }

  // One turn of the loop.
  function Step(s: string, c: Config): (r: Config)
    requires Ready(s, c)
    ensures r.tok <= r.p
    ensures r.p > c.p || (r.p == c.p && Rank(r.state) < Rank(c.state))
  {
    var ch, tok := CharAt(s, c.p), s[c.tok..c.p];
    match c.state
    case IpStart => IpStep(s, c.(state := Ip, tok := c.p))
    case Ip => IpStep(s, c)
    case SkipIdent => var q := WordEnd(s, c.p) + 1; Config(SkipAuth, q, c.tok, c.out)
    case SkipAuth => var q := WordEnd(s, c.p) + 1; Config(Bracket, q, c.tok, c.out)
    case Bracket =>
      if ch == '[' then Config(Stamp, c.p + 1, c.p + 1, c.out)
      else if ch == ' ' then Move(c)
      else c.(state := Error)
    case Stamp =>
      if ch == ']' then
        var q := SpacesQuotesEnd(s, c.p + 1);
        Config(Verb, q, q, c.out.(ts := Timestamp.Parse(tok)))
      else Move(c)
    case Verb =>
      if ch == ' ' || ch == '\0' then Config(Url, c.p + 1, c.p + 1, c.out.(verb := tok)) else Move(c)
    case Url =>
      if ch == ' ' || ch == '"' || ch == '\0' then Config(Protocol, c.p + 1, c.p + 1, c.out.(url := tok)) else Move(c)
    case Protocol =>
      if ch == '"' || ch == ' ' || ch == '\0' then
        var q := SpacesQuotesEnd(s, c.p);
        Config(Status, q, q, c.out.(protocol := tok))
      else Move(c)
    case Status =>
      if IsDigit(ch) then Move(c.(out := c.out.(status := c.out.status * 10 + DigitOf(ch))))
      else var q := SpacesEnd(s, c.p); Config(Bytes, q, q, c.out)
    case Bytes =>
      if IsDigit(ch) then Move(c.(out := c.out.(bytes := c.out.bytes * 10 + DigitOf(ch))))
      else
        var q := SpacesEnd(s, c.p);
        Config(if q < |s| && s[q] == '"' then SkipRef else Done, q, c.tok, c.out)
    case SkipRef => RefStep(s, c)
    case UserAgent => QuotedStep(s, c)
    case Xff => QuotedStep(s, c)
    case Body => QuotedStep(s, c)
    case Cookie => QuotedStep(s, c)
    case Host => QuotedStep(s, c)
  }

  function IpStep(s: string, c: Config): (r: Config)
    requires c.tok <= c.p <= |s|
    ensures r.p == c.p + 1 && r.tok == c.tok
  {
    var ch := CharAt(s, c.p);
    if ch == ' ' || ch == '\0' then Config(SkipIdent, c.p + 1, c.tok, c.out.(ip := StripBrackets(s[c.tok..c.p])))
    else Config(Ip, c.p + 1, c.tok, c.out)
  }

  function RefStep(s: string, c: Config): (r: Config)
    requires Ready(s, c) && c.state == SkipRef
    ensures r.tok <= r.p
    ensures r.p > c.p || (r.p == c.p && r.state == Error)
  {
    if CharAt(s, c.p) != '"' then c.(state := Error)
    else
      var q := ForwardQuote(s, c.p + 1);
      var q' := SpacesEnd(s, if q < |s| then q + 1 else q);
      if q' < |s| && s[q'] == '"' then Config(UserAgent, q' + 1, q' + 1, c.out) else Config(Done, q', c.tok, c.out)
  }

  // The states that read a quoted field up to the quote the backward test accepts.
  predicate IsQuoted(state: State) { state.UserAgent? || state.Xff? || state.Body? || state.Cookie? || state.Host? }

  // Where the text of a quoted field goes.
  function StoreText(state: State, out: LogEntry, text: string): LogEntry
    requires IsQuoted(state)
  {
    if state == UserAgent then out.(userAgent := text)
    else if state == Xff then out.(xff := text)
    else if state == Body then out.(body := BodyText(text))
    else if state == Cookie then out.(cookie := DashIsEmpty(text))
    else out.(host := DashIsEmpty(text))
  }

  function NextQuoted(state: State): State
    requires IsQuoted(state)
  {
    if state == UserAgent then Xff
    else if state == Xff then Body
    else if state == Body then Cookie
    else if state == Cookie then Host
    else Done
  }

  function QuotedStep(s: string, c: Config): (r: Config)
    requires Ready(s, c) && IsQuoted(c.state)
    ensures r.p > c.p && r.tok <= r.p
  {
    if !ClosesField(s, c.tok, c.p) then Move(c)
    else
      var out := StoreText(c.state, c.out, s[c.tok..c.p]);
      if c.state == Host then Config(Done, c.p + 1, c.tok, out) else AfterField(s, c.p, c.tok, NextQuoted(c.state), out)
  }

  // The loop: it stops in a final state or past the end of the line.
  function Run(s: string, c: Config): Config
    requires c.tok <= c.p
    decreases |s| + 1 - c.p, Rank(c.state)
  {
    if Ready(s, c) then Run(s, Step(s, c)) else c
  }

  // ---------- parse_log_line ----------

  // find_lit, as a yes or no
  ghost predicate Contains(s: string, lit: string) { exists i: nat :: OccursAt(s, lit, i) }

  // log_line_is_tampered
  predicate IsTampered(s: string) { exists i | 0 <= i < |s| :: s[i] == '\0' || s[i] == '\r' || s[i] == '\U{1b}' }

  function Truncate(s: string, n: nat): string { if |s| > n then s[..n] else s }

  // The first address of a forwarded-for list.
  function FirstHop(xff: string, p: nat): (r: nat)
    requires p <= |xff|
    ensures p <= r <= |xff|
    decreases |xff| - p
  {
    if p < |xff| && xff[p] != ',' && xff[p] != ' ' then FirstHop(xff, p + 1) else p
  }

  // The forwarded-for address replaces the peer's only behind a trusted proxy.
  function ApplyForwarded(env: Env, e: LogEntry): (r: LogEntry)
    ensures r == e.(ip := r.ip)
    ensures !env.trusted(Truncate(e.ip, IP_STR_LEN - 1)) ==> r == e
  {
    if |e.xff| > 0 && e.xff[0] != '-' && |e.ip| > 0 && env.trusted(Truncate(e.ip, IP_STR_LEN - 1)) then
      var n := FirstHop(e.xff, 0);
      var clean := StripBrackets(e.xff[..n]);
      if n > 0 && env.validIp(Truncate(clean, IP_STR_LEN - 1)) then e.(ip := clean) else e
    else e
  }

  // The checks after the loop.
  function Finish(env: Env, c: Config): Outcome {
    if c.state == Error || c.out.ip == "" || c.out.ts == 0 || c.out.verb == "" || c.out.url == ""
       || c.out.status < 100 || c.out.status > 599 then Malformed
    else Parsed(ApplyForwarded(env, c.out.(respBytes := c.out.bytes)))
  }

  const START := Config(IpStart, 0, 0, EMPTY)

  ghost function Parse(env: Env, s: string): Outcome {
    if s == "" then Malformed
    else if IsTampered(s) then Tampered
    else if Contains(s, "sshd[") && env.sshd(s).Parsed? then env.sshd(s)
    else if Contains(s, "sudo[") && env.sudo(s).Parsed? then env.sudo(s)
    else Finish(env, Run(s, START))
  }

  // ---------- No line carries a response time ----------

  lemma StepKeepsTime(s: string, c: Config)
    requires Ready(s, c)
    ensures Step(s, c).out.responseMs == c.out.responseMs
  {
    hide Timestamp.Parse, ForwardQuote, SpacesEnd, SpacesQuotesEnd, WordEnd, StripBrackets;
  }

  lemma {:induction false} RunKeepsTime(s: string, c: Config)
    requires c.tok <= c.p
    ensures Run(s, c).out.responseMs == c.out.responseMs
    decreases |s| + 1 - c.p, Rank(c.state)
  {
    if Ready(s, c) {
      hide Step;
      StepKeepsTime(s, c);
      RunKeepsTime(s, Step(s, c));
    }
  }

  // The two syslog formats leave the field zero too.
  ghost predicate AuthWithoutTime(env: Env, s: string) {
    && (env.sshd(s).Parsed? ==> env.sshd(s).entry.responseMs == 0)
    && (env.sudo(s).Parsed? ==> env.sudo(s).entry.responseMs == 0)
  }

  // The response time of every parsed line is zero: nothing in the line is ever stored there.
  lemma ParsedWithoutTime(env: Env, s: string)
    requires AuthWithoutTime(env, s)
    ensures Parse(env, s).Parsed? ==> Parse(env, s).entry.responseMs == 0
  {
    hide Run;
    RunKeepsTime(s, START);
  }
}
