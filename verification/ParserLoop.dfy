/** parser.c: the scanning loops and the switch of parse_log_line as they run, on a cursor, a
    token start, a state and an output that change in place. */
module ParserLoop {
  import opened Decimals
  import opened Parser
  import Timestamp
  import opened Texts

  method SkipSpaces(s: string, start: nat) returns (p: nat)
    requires start <= |s|
    ensures p == SpacesEnd(s, start)
  {
    p := start;
    while p < |s| && s[p] == ' '
      invariant start <= p <= |s| && SpacesEnd(s, start) == SpacesEnd(s, p)
    {
      p := p + 1;
    }
  }

  method SkipSpacesQuotes(s: string, start: nat) returns (p: nat)
    requires start <= |s|
    ensures p == SpacesQuotesEnd(s, start)
  {
    p := start;
    while p < |s| && (s[p] == ' ' || s[p] == '"')
      invariant start <= p <= |s| && SpacesQuotesEnd(s, start) == SpacesQuotesEnd(s, p)
    {
      p := p + 1;
    }
  }

  method SkipWord(s: string, start: nat) returns (p: nat)
    requires start <= |s|
    ensures p == WordEnd(s, start)
  {
    p := start;
    while p < |s| && s[p] != ' '
      invariant start <= p <= |s| && WordEnd(s, start) == WordEnd(s, p)
    {
      p := p + 1;
    }
  }

  // The pair-skipping loop of ST_SKIP_REF.
  method SkipToQuote(s: string, start: nat) returns (p: nat)
    requires start <= |s|
    ensures p == ForwardQuote(s, start)
  {
    p := start;
    while p < |s| && s[p] != '"'
      invariant start <= p <= |s| && ForwardQuote(s, start) == ForwardQuote(s, p)
    {
      if s[p] == '\\' && p + 1 < |s| {
        p := p + 1;
      }
      p := p + 1;
    }
  }

  // is_unescaped_closing_quote
  method IsUnescapedClosingQuote(s: string, start: nat, p: nat) returns (r: bool)
    requires start <= p <= |s|
    ensures r <==> ClosesField(s, start, p)
  {
    if p >= |s| || s[p] != '"' {
      return false;
    }
    var bs, q := 0, p;
    while q > start && s[q - 1] == '\\'
      invariant start <= q <= p && Backslashes(s, start, p) == bs + Backslashes(s, start, q)
    {
      bs := bs + 1;
      q := q - 1;
    }
    r := bs % 2 == 0;
  }

  lemma ClosedInside(s: string, start: nat, p: nat)
    requires start <= p <= |s| && ClosesField(s, start, p)
    ensures p < |s|
  {
  }

  // The loop object: line, cursor, token start, state and output.
  class Machine {
    const s: string
    var state: State
    var p: nat
    var tok: nat
    var out: LogEntry

    constructor (line: string)
      ensures s == line && Now() == START
    {
      s := line;
      state := IpStart;
      p := 0;
      tok := 0;
      out := EMPTY;
    }

    ghost function Now(): Config
      reads this
    {
      Config(state, p, tok, out)
    }

    method IpTurn()
      requires tok <= p <= |s|
      modifies this
      ensures Now() == IpStep(s, old(Now()))
    {
      var c := CharAt(s, p);
      if c == ' ' || c == '\0' {
        out := out.(ip := StripBrackets(s[tok..p]));
        state := SkipIdent;
      } else {
        state := Ip;
      }
      p := p + 1;
    }

    // What every quoted field but the last does once its closing quote is found.
    method StartNext(next: State)
      requires tok <= p < |s|
      modifies this
      ensures Now() == AfterField(s, old(p), old(tok), next, old(out))
    {
      p := SkipSpaces(s, p + 1);
      if p < |s| && s[p] == '"' {
        state := next;
        tok := p + 1;
        p := p + 1;
      } else {
        state := Done;
      }
    }

    method Store(text: string)
      requires IsQuoted(state)
      modifies this`out
      ensures out == StoreText(state, old(out), text)
    {
      if state == UserAgent {
        out := out.(userAgent := text);
      } else if state == Xff {
        out := out.(xff := text);
      } else if state == Body {
        out := out.(body := BodyText(text));
      } else if state == Cookie {
        out := out.(cookie := DashIsEmpty(text));
      } else {
        out := out.(host := DashIsEmpty(text));
      }
    }

    // The quoted fields of the switch.
    method QuotedTurn()
      requires Ready(s, Now()) && IsQuoted(state)
      modifies this
      ensures Now() == QuotedStep(s, old(Now()))
    {
      hide StoreText, ClosesField, SpacesEnd, AfterField;
      var closes := IsUnescapedClosingQuote(s, tok, p);
      if !closes {
        p := p + 1;
      } else {
        ClosedInside(s, tok, p);
        Store(s[tok..p]);
        if state == Host {
          state := Done;
          p := p + 1;
        } else {
          StartNext(NextQuoted(state));
        }
      }
    }

    // The fields of the switch up to the time stamp.
    method LeadTurn()
      requires Ready(s, Now()) && (state.SkipIdent? || state.SkipAuth? || state.Bracket? || state.Stamp?)
      modifies this
      ensures Now() == Step(s, old(Now()))
    {
      hide Timestamp.Parse, WordEnd, SpacesQuotesEnd;
      var c, text := CharAt(s, p), s[tok..p];
      if state == SkipIdent {
        p := SkipWord(s, p);
        p := p + 1;
        state := SkipAuth;
      } else if state == SkipAuth {
        p := SkipWord(s, p);
        p := p + 1;
        state := Bracket;
      } else if state == Bracket {
        if c == '[' {
          tok, state, p := p + 1, Stamp, p + 1;
        } else if c == ' ' {
          p := p + 1;
        } else {
          state := Error;
        }
      } else {
        if c == ']' {
          var ts := Timestamp.ParseTimestamp(text);
          out := out.(ts := ts);
          state := Verb;
          p := SkipSpacesQuotes(s, p + 1);
          tok := p;
        } else {
          p := p + 1;
        }
      }
    }

    // The three words of the request.
    method RequestTurn()
      requires Ready(s, Now()) && (state.Verb? || state.Url? || state.Protocol?)
      modifies this
      ensures Now() == Step(s, old(Now()))
    {
      var c, text := CharAt(s, p), s[tok..p];
      if state == Verb {
        if c == ' ' || c == '\0' {
          out := out.(verb := text);
          state, tok := Url, p + 1;
        }
        p := p + 1;
      } else if state == Url {
        if c == ' ' || c == '"' || c == '\0' {
          out := out.(url := text);
          state, tok := Protocol, p + 1;
        }
        p := p + 1;
      } else {
        if c == '"' || c == ' ' || c == '\0' {
          out := out.(protocol := text);
          p := SkipSpacesQuotes(s, p);
          tok, state := p, Status;
        } else {
          p := p + 1;
        }
      }
    }

    // The two numbers.
    method NumberTurn()
      requires Ready(s, Now()) && (state.Status? || state.Bytes?)
      modifies this
      ensures Now() == Step(s, old(Now()))
    {
      var c := CharAt(s, p);
      if state == Status {
        if IsDigit(c) {
          out := out.(status := out.status * 10 + DigitOf(c));
          p := p + 1;
        } else {
          p := SkipSpaces(s, p);
          tok, state := p, Bytes;
        }
      } else {
        if IsDigit(c) {
          out := out.(bytes := out.bytes * 10 + DigitOf(c));
          p := p + 1;
        } else {
          p := SkipSpaces(s, p);
          state := if p < |s| && s[p] == '"' then SkipRef else Done;
        }
      }
    }

    // The referrer, which is skipped.
    method RefTurn()
      requires Ready(s, Now()) && state == SkipRef
      modifies this
      ensures Now() == RefStep(s, old(Now()))
    {
      hide ForwardQuote, SpacesEnd;
      if CharAt(s, p) != '"' {
        state := Error;
      } else {
        var q := SkipToQuote(s, p + 1);
        if q < |s| {
          q := q + 1;
        }
        q := SkipSpaces(s, q);
        if q < |s| && s[q] == '"' {
          state, tok, p := UserAgent, q + 1, q + 1;
        } else {
          state, p := Done, q;
        }
      }
    }

    // One turn of the switch.
    method Turn()
      requires Ready(s, Now())
      modifies this
      ensures Now() == Step(s, old(Now()))
    {
      if state == IpStart {
        tok, state := p, Ip;
        IpTurn();
      } else if state == Ip {
        IpTurn();
      } else if state.Status? || state.Bytes? {
        NumberTurn();
      } else if state == SkipRef {
        RefTurn();
      } else if state.Verb? || state.Url? || state.Protocol? {
        RequestTurn();
      } else if IsQuoted(state) {
        QuotedTurn();
      } else {
        LeadTurn();
      }
    }

    // The loop of parse_log_line.
    method Loop()
      requires tok <= p
      modifies this
      ensures Now() == Run(s, old(Now()))
    {
      while p <= |s| && state != Done && state != Error
        invariant tok <= p && Run(s, Now()) == Run(s, old(Now()))
        decreases |s| + 1 - p, Rank(state)
      {
        Turn();
      }
    }
  }

  // find_lit
  method FindLit(s: string, lit: string) returns (found: bool)
    ensures found <==> Contains(s, lit)
  {
    found := false;
    var i := 0;
    while i + |lit| <= |s|
      invariant 0 <= i && forall j: nat | j < i :: !OccursAt(s, lit, j)
    {
      if s[i..i + |lit|] == lit {
        assert OccursAt(s, lit, i);
        return true;
      }
      i := i + 1;
    }
  }

  // log_line_is_tampered
  method LogLineIsTampered(s: string) returns (r: bool)
    ensures r <==> IsTampered(s)
  {
    for i := 0 to |s|
      invariant forall j | 0 <= j < i :: s[j] != '\0' && s[j] != '\r' && s[j] != '\U{1b}'
    {
      if s[i] == '\0' || s[i] == '\r' || s[i] == '\U{1b}' {
        return true;
      }
    }
    r := false;
  }

  // parse_log_line
  method ParseLogLine(env: Env, s: string) returns (r: Outcome)
    ensures r == Parse(env, s)
  {
    hide Run, Finish, IsTampered;
    if s == "" {
      return Malformed;
    }
    var tampered := LogLineIsTampered(s);
    if tampered {
      return Tampered;
    }
    var sshd := FindLit(s, "sshd[");
    if sshd && env.sshd(s).Parsed? {
      return env.sshd(s);
    }
    var sudo := FindLit(s, "sudo[");
    if sudo && env.sudo(s).Parsed? {
      return env.sudo(s);
    }
    var m := new Machine(s);
    m.Loop();
    r := Finish(env, Config(m.state, m.p, m.tok, m.out));
  }
}
