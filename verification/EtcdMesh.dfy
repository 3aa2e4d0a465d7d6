/** etcd_mesh.c: the ban value a node publishes and what a watching node takes out of it. Text is
    made of octets and, being C text, holds no NUL; the server between the two nodes hands the value
    on unchanged inside a larger message. */
module EtcdMesh {
  import opened Base64
  import Decimals
  import opened Wrappers
  import opened Texts

  const VALUE_SIZE := 512
  const B64_SIZE := 1024
  const WATCH_SIZE := 512
  const IP_SIZE := 64
  const VALUE_MARK := "\"value\":\""
  const IP_MARK := "\"ip\":\""

  predicate IsText(s: string) { forall k | 0 <= k < |s| :: 0 < s[k] as int < 256 }

  // ---------- The published value ----------

  function Rest(score: nat, tactic: string, reason: string, ts: nat): string {
    "\",\"score\":" + (Decimals.Decimal(score) + (",\"tactic\":\"" + (tactic + ("\",\"reason\":\"" + (reason
    + ("\",\"ts\":" + (Decimals.Decimal(ts) + "}")))))))
  }

  // The JSON value before it is cut.
  function Value(ip: string, score: nat, tactic: string, reason: string, ts: nat): string {
    "{" + (IP_MARK + (ip + Rest(score, tactic, reason, ts)))
  }

  // snprintf into a buffer of `size`.
  function Cut(s: string, size: nat): string
    requires size > 0
  {
    if |s| < size then s else s[..size - 1]
  }

  lemma TextJoins(a: string, b: string)
    requires IsText(a) && IsText(b)
    ensures IsText(a + b)
  {
  }

  lemma DigitsAreText(n: nat)
    ensures IsText(Decimals.Decimal(n))
  {
    var s := Decimals.Decimal(n);
    assert forall k | 0 <= k < |s| :: Decimals.IsDigit(s[k]);
  }

  lemma RestIsText(score: nat, tactic: string, reason: string, ts: nat)
    requires IsText(tactic) && IsText(reason)
    ensures IsText(Rest(score, tactic, reason, ts))
    ensures |Rest(score, tactic, reason, ts)| > 0 && Rest(score, tactic, reason, ts)[0] == '"'
  {
    var d, e := Decimals.Decimal(score), Decimals.Decimal(ts);
    DigitsAreText(score);
    DigitsAreText(ts);
    TextJoins(e, "}");
    TextJoins("\",\"ts\":", e + "}");
    var f := "\",\"ts\":" + (e + "}");
    TextJoins(reason, f);
    TextJoins("\",\"reason\":\"", reason + f);
    var g := "\",\"reason\":\"" + (reason + f);
    TextJoins(tactic, g);
    TextJoins(",\"tactic\":\"", tactic + g);
    var h := ",\"tactic\":\"" + (tactic + g);
    TextJoins(d, h);
    TextJoins("\",\"score\":", d + h);
  }

  // The encoding that is sent.
  function Published(v: string): string
    requires IsText(v)
  {
    Encoding(Cut(v, VALUE_SIZE))
  }

  // The value part of etcd_kv_put.
  method EncodeValue(ip: string, score: nat, tactic: string, reason: string, ts: nat) returns (b64: string)
    requires IsText(ip) && IsText(tactic) && IsText(reason)
    ensures IsText(Value(ip, score, tactic, reason, ts))
    ensures b64 == Published(Value(ip, score, tactic, reason, ts))
  {
    hide Encoding, IsText, Rest;
    var v := Value(ip, score, tactic, reason, ts);
    ValueIsText(ip, score, tactic, reason, ts);
    var raw := Cut(v, VALUE_SIZE);
    CutIsText(v, VALUE_SIZE);
    var octets := AsOctets(raw);
    var out := new char[B64_SIZE];
    var o := Encode(octets, out);
    AllCovered(|octets|);
    assert octets[..|octets|] == octets;
    b64 := out[..o];
  }

  lemma AllCovered(n: nat)
    requires n < VALUE_SIZE
    ensures Covered(n, B64_SIZE) == n
  {
  }

  function AsOctets(s: string): (r: seq<Octet>)
    requires IsText(s)
    ensures r == s
  {
    s
  }

  lemma ValueIsText(ip: string, score: nat, tactic: string, reason: string, ts: nat)
    requires IsText(ip) && IsText(tactic) && IsText(reason)
    ensures IsText(Value(ip, score, tactic, reason, ts))
  {
    hide Rest;
    RestIsText(score, tactic, reason, ts);
    TextJoins(ip, Rest(score, tactic, reason, ts));
    TextJoins(IP_MARK, ip + Rest(score, tactic, reason, ts));
    TextJoins("{", IP_MARK + (ip + Rest(score, tactic, reason, ts)));
  }

  lemma CutIsText(s: string, size: nat)
    requires IsText(s) && size > 0
    ensures IsText(Cut(s, size)) && |Cut(s, size)| < size
  {
  }

  // ---------- The watcher ----------

  // strstr: the first occurrence from p on.
  function FirstAt(s: string, mark: string, p: nat): (r: Option<nat>)
    ensures r.Some? ==> p <= r.value && OccursAt(s, mark, r.value)
    decreases |s| - p
  {
    if p + |mark| > |s| then None
    else if OccursAt(s, mark, p) then Some(p)
    else if p < |s| then FirstAt(s, mark, p + 1) else None
  }

  // Text from p up to a quote, the end or `max` characters.
  function Field(s: string, p: nat, max: nat): string
    requires p <= |s|
    decreases max
  {
    if p < |s| && s[p] != '\0' && s[p] != '"' && max > 0 then [s[p]] + Field(s, p + 1, max - 1) else ""
  }

  function BeforeNul(s: string): string {
    if s == "" || s[0] == '\0' then "" else [s[0]] + BeforeNul(s[1..])
  }

  // json_get_str for the key "ip", followed by the test for an empty result.
  function JsonIp(json: string): Option<string> {
    var m := FirstAt(json, IP_MARK, 0);
    if m.None? then None
    else
      var ip := Field(json, m.value + |IP_MARK|, IP_SIZE - 1);
      if ip == "" then None else Some(ip)
  }

  // The address a watcher takes out of a message.
  function Watched(chunk: string): Option<string> {
    var m := FirstAt(chunk, VALUE_MARK, 0);
    if m.None? then None
    else
      var b64 := Field(chunk, m.value + |VALUE_MARK|, WATCH_SIZE - 1);
      var v := Decoding(b64, VALUE_SIZE);
      if b64 == "" || v == [] then None else JsonIp(BeforeNul(v))
  }

  method StrStr(s: string, mark: string) returns (r: Option<nat>)
    ensures r == FirstAt(s, mark, 0)
  {
    var p := 0;
    while p + |mark| <= |s|
      invariant FirstAt(s, mark, 0) == FirstAt(s, mark, p)
      decreases |s| - p
    {
      if s[p..p + |mark|] == mark {
        return Some(p);
      }
      p := p + 1;
    }
    r := None;
  }

  method CopyField(s: string, start: nat, size: nat) returns (r: string)
    requires start <= |s| && size > 0
    ensures r == Field(s, start, size - 1)
  {
    var out := new char[size];
    var p, i := start, 0;
    while p < |s| && s[p] != '\0' && s[p] != '"' && i + 1 < size
      invariant start <= p <= |s| && i < size
      invariant Field(s, start, size - 1) == out[..i] + Field(s, p, size - 1 - i)
    {
      ghost var before := out[..i];
      out[i] := s[p];
      assert out[..i + 1] == before + [s[p]];
      assert (before + [s[p]]) + Field(s, p + 1, size - 2 - i) == before + ([s[p]] + Field(s, p + 1, size - 2 - i));
      i := i + 1;
      p := p + 1;
    }
    assert out[..i] + "" == out[..i];
    r := out[..i];
  }

  method UpToNul(s: string) returns (r: string)
    ensures r == BeforeNul(s)
  {
    var i := 0;
    assert s[0..] == s;
    while i < |s| && s[i] != '\0'
      invariant i <= |s| && BeforeNul(s) == s[..i] + BeforeNul(s[i..])
    {
      assert s[i..][1..] == s[i + 1..];
      assert s[..i] + ([s[i]] + BeforeNul(s[i + 1..])) == s[..i + 1] + BeforeNul(s[i + 1..]);
      i := i + 1;
    }
    assert s[..i] + "" == s[..i];
    r := s[..i];
  }

  // The extraction in process_watch_event, up to the validation of the address.
  method ProcessWatchEvent(chunk: string) returns (ip: Option<string>)
    ensures ip == Watched(chunk)
  {
    hide Decoding, Field, FirstAt, BeforeNul;
    var m := StrStr(chunk, VALUE_MARK);
    if m.None? {
      return None;
    }
    var b64 := CopyField(chunk, m.value + |VALUE_MARK|, WATCH_SIZE);
    if b64 == "" {
      return None;
    }
    var out := new char[VALUE_SIZE];
    var o := Decode(b64, out);
    if o == 0 {
      assert out[..o] == [];
      return None;
    }
    var json := UpToNul(out[..o]);
    m := StrStr(json, IP_MARK);
    if m.None? {
      return None;
    }
    var r := CopyField(json, m.value + |IP_MARK|, IP_SIZE);
    ip := if r == "" then None else Some(r);
  }

  // ---------- The watcher finds what was published ----------

  lemma {:induction false} FirstAtIs(s: string, mark: string, p: nat, i: nat)
    requires p <= i && OccursAt(s, mark, i) && forall j: nat | p <= j < i :: !OccursAt(s, mark, j)
    ensures FirstAt(s, mark, p) == Some(i)
    decreases i - p
  {
    if p < i {
      FirstAtIs(s, mark, p + 1, i);
    }
  }

  lemma {:induction false} FieldIs(s: string, p: nat, n: nat, max: nat)
    requires p + n <= |s| && n <= max && forall k | p <= k < p + n :: Plain(s[k])
    requires n == max || (p + n < |s| && s[p + n] == '"')
    ensures Field(s, p, max) == s[p..p + n]
    decreases n
  {
    if n > 0 {
      FieldIs(s, p + 1, n - 1, max - 1);
      assert s[p..p + n] == [s[p]] + s[p + 1..p + n];
    }
  }

  lemma {:induction false} TextBeforeNul(s: string)
    requires IsText(s)
    ensures BeforeNul(s) == s
  {
    if s != "" {
      TextBeforeNul(s[1..]);
      assert s == [s[0]] + s[1..];
    }
  }

  // The first field named by `mark` in a message.
  lemma MarkedField(pre: string, mark: string, e: string, post: string, max: nat)
    requires forall k | 0 <= k < |e| :: Plain(e[k])
    requires forall j: nat | j < |pre| :: !OccursAt(pre + mark, mark, j)
    ensures var chunk := pre + mark + e + "\"" + post;
      && FirstAt(chunk, mark, 0) == Some(|pre|)
      && Field(chunk, |pre| + |mark|, max) == e[..Smaller(|e|, max)]
  {
    hide FirstAt, Field, OccursAt;
    var a := pre + mark;
    var chunk, n := a + e + "\"" + post, |a|;
    assert chunk[..n] == a;
    MarkAfter(pre, mark, chunk);
    FieldInside(a, e, post, max);
  }

  lemma MarkAfter(pre: string, mark: string, chunk: string)
    requires |pre| + |mark| <= |chunk| && chunk[..|pre| + |mark|] == pre + mark
    requires forall j: nat | j < |pre| :: !OccursAt(pre + mark, mark, j)
    ensures FirstAt(chunk, mark, 0) == Some(|pre|)
  {
    hide FirstAt;
    var a := pre + mark;
    forall j: nat | j <= |pre|
      ensures OccursAt(chunk, mark, j) <==> OccursAt(a, mark, j)
    {
      OccursInside(chunk, |a|, mark, j);
    }
    assert OccursAt(a, mark, |pre|) by {
      assert a[|pre|..|a|] == mark;
    }
    hide OccursAt;
    FirstAtIs(chunk, mark, 0, |pre|);
  }

  lemma OccursInside(s: string, n: nat, mark: string, j: nat)
    requires j + |mark| <= n <= |s|
    ensures OccursAt(s, mark, j) <==> OccursAt(s[..n], mark, j)
  {
    SameInside(s, n, j, j + |mark|);
  }

  lemma SameInside(s: string, n: nat, i: nat, j: nat)
    requires i <= j <= n <= |s|
    ensures s[..n][i..j] == s[i..j]
  {
  }

  lemma FieldInside(a: string, e: string, post: string, max: nat)
    requires forall k | 0 <= k < |e| :: Plain(e[k])
    ensures Field(a + e + "\"" + post, |a|, max) == e[..Smaller(|e|, max)]
  {
    hide Field;
    var chunk, n, m := a + e + "\"" + post, |a|, Smaller(|e|, max);
    assert forall k | n <= k < n + m :: chunk[k] == e[k - n];
    assert chunk[n + |e|] == '"';
    FieldIs(chunk, n, m, max);
    assert chunk[n..n + m] == e[..m];
  }

  function Smaller(a: nat, b: nat): nat { if a < b then a else b }

  // What is left of the value after decoding still starts with the mark and the whole address.
  lemma LeadingMark(json: string, mark: string)
    requires mark != "" && mark[0] == '"' && |json| >= 1 + |mark| && json[0] == '{' && json[1..1 + |mark|] == mark
    ensures FirstAt(json, mark, 0) == Some(1)
  {
    hide FirstAt;
    assert !OccursAt(json, mark, 0);
    assert OccursAt(json, mark, 1);
    FirstAtIs(json, mark, 0, 1);
  }

  lemma LeadingField(v: string, m: nat, k: nat, ip: string, max: nat)
    requires m + |ip| < |v| && v[m..m + |ip|] == ip && v[m + |ip|] == '"'
    requires k <= |v| && (k == |v| || k >= m + max) && forall j | 0 <= j < |ip| :: Plain(ip[j])
    ensures m <= k && Field(v[..k], m, max) == ip[..Smaller(|ip|, max)]
  {
    hide Field;
    var json, n := v[..k], Smaller(|ip|, max);
    forall j | m <= j < m + n
      ensures json[j] == ip[j - m]
    {
      assert v[m..m + |ip|][j - m] == v[j];
    }
    FieldIs(json, m, n, max);
    assert json[m..m + n] == ip[..n];
  }

  lemma ValueParts(v: string, mark: string, ip: string, rest: string)
    requires v == "{" + (mark + (ip + rest)) && rest != ""
    ensures var m := 1 + |mark|;
      && m + |ip| < |v| && v[0] == '{' && v[1..m] == mark && v[m..m + |ip|] == ip && v[m + |ip|] == rest[0]
  {
    var m := 1 + |mark|;
    assert v[1..] == mark + (ip + rest);
    assert v[m..] == ip + rest;
  }

  // Enough of the value survives the two buffers it goes through.
  lemma EnoughRecovered(n: nat, k: nat)
    requires n < VALUE_SIZE && k == Smaller(4 * ((n + 2) / 3), WATCH_SIZE - 1)
    ensures Smaller(n, 381) <= Recovered(n, k, VALUE_SIZE) <= n
  {
  }

  // For every score, tactic, reason and time, however long, a watcher recovers the published address.
  lemma WatcherRecovers(pre: string, post: string, ip: string, score: nat, tactic: string, reason: string, ts: nat)
    requires IsText(ip) && IsText(tactic) && IsText(reason) && ip != "" && '"' !in ip
    requires forall j: nat | j < |pre| :: !OccursAt(pre + VALUE_MARK, VALUE_MARK, j)
    ensures IsText(Value(ip, score, tactic, reason, ts))
    ensures Watched(pre + VALUE_MARK + Published(Value(ip, score, tactic, reason, ts)) + "\"" + post)
         == Some(ip[..Smaller(|ip|, IP_SIZE - 1)])
    ensures |ip| <= 45 ==>
      Watched(pre + VALUE_MARK + Published(Value(ip, score, tactic, reason, ts)) + "\"" + post) == Some(ip)
  {
    hide FirstAt, Field, Rest, Decoding, Encoding, BeforeNul;
    var v, rest := Value(ip, score, tactic, reason, ts), Rest(score, tactic, reason, ts);
    ValueIsText(ip, score, tactic, reason, ts);
    RestIsText(score, tactic, reason, ts);
    var raw := AsOctets(Cut(v, VALUE_SIZE));
    var e := Encoding(raw);
    EncodingShape(raw);
    MarkedField(pre, VALUE_MARK, e, post, WATCH_SIZE - 1);
    var k := Smaller(|e|, WATCH_SIZE - 1);
    DecodeOfCut(raw, k, VALUE_SIZE);
    EnoughRecovered(|raw|, k);
    var r := Recovered(|raw|, k, VALUE_SIZE);
    assert raw[..r] == v[..r];
    TextBeforeNul(v[..r]);
    ValueParts(v, IP_MARK, ip, rest);
    SameInside(v, r, 1, 7);
    LeadingMark(v[..r], IP_MARK);
    LeadingField(v, 7, r, ip, IP_SIZE - 1);
    if |ip| <= 45 {
      assert ip[..Smaller(|ip|, IP_SIZE - 1)] == ip;
    }
  }
}
