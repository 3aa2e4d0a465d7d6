/** etcd_mesh.c: base64_encode and base64_decode over bounded buffers, against section 4 of RFC 4648. */
module Base64 {

  type Octet = c: char | c as int < 256 witness 'a'

  function OctetOf(v: int): Octet
    requires 0 <= v < 256
  {
    v as char
  }

  // ---------- The alphabet ----------

  function Letter(v: int): char
    requires 0 <= v < 64
  {
    if v < 26 then ('A' as int + v) as char
    else if v < 52 then ('a' as int + v - 26) as char
    else if v < 62 then ('0' as int + v - 52) as char
    else if v == 62 then '+' else '/'
  }

  // base64_decode_byte
  function Sextet(c: char): int {
    if 'A' <= c <= 'Z' then c as int - 'A' as int
    else if 'a' <= c <= 'z' then c as int - 'a' as int + 26
    else if '0' <= c <= '9' then c as int - '0' as int + 52
    else if c == '+' then 62
    else if c == '/' then 63
    else -1
  }

  predicate Plain(c: char) { c != '"' && c != '\0' }

  lemma SextetOfLetter(v: int)
    requires 0 <= v < 64
    ensures Sextet(Letter(v)) == v && Letter(v) != '=' && Plain(Letter(v))
  {
  }

  // ---------- Encoding, section 4 of RFC 4648 ----------

  // One group of three octets, of which the last `pad` are missing.
  function Group(x: int, y: int, z: int, pad: int): (g: string)
    requires 0 <= x < 256 && 0 <= y < 256 && 0 <= z < 256
    ensures |g| == 4
  {
    var v := 65536 * x + 256 * y + z;
    [Letter(v / 262144 % 64), Letter(v / 4096 % 64),
     if pad >= 2 then '=' else Letter(v / 64 % 64), if pad >= 1 then '=' else Letter(v % 64)]
  }

  function Encoding(s: seq<Octet>): string {
    if |s| == 0 then ""
    else if |s| == 1 then Group(s[0] as int, 0, 0, 2)
    else if |s| == 2 then Group(s[0] as int, s[1] as int, 0, 1)
    else Group(s[0] as int, s[1] as int, s[2] as int, 0) + Encoding(s[3..])
  }

  // ---------- Decoding ----------

  // What one group of four characters stands for.
  function GroupOctets(t: string): (r: seq<Octet>)
    requires |t| == 4 && Sextet(t[0]) >= 0 && Sextet(t[1]) >= 0
    ensures 1 <= |r| <= 3
  {
    var a, b := Sextet(t[0]), Sextet(t[1]);
    var c, d := Third(t), Fourth(t);
    [OctetOf((4 * a + b / 16) % 256)] + (if t[2] != '=' then [Middle(b, c)] else [])
      + (if t[3] != '=' then [Last(c, d)] else [])
  }

  function Third(t: string): (c: int)
    requires |t| == 4
    ensures -1 <= c < 64
  {
    if t[2] != '=' then Sextet(t[2]) else 0
  }

  function Fourth(t: string): (d: int)
    requires |t| == 4
    ensures -1 <= d < 64
  {
    if t[3] != '=' then Sextet(t[3]) else 0
  }

  // (b << 4) | (c >> 2) and (c << 6) | d, cut to eight bits; an unknown character counts as -1.
  function Middle(b: int, c: int): Octet
    requires -1 <= c < 64 && 0 <= b < 64
  {
    OctetOf(if c < 0 then 255 else (16 * b + c / 4) % 256)
  }

  function Last(c: int, d: int): Octet
    requires -1 <= c < 64 && -1 <= d < 64
  {
    OctetOf(if d < 0 then 255 else if c < 0 then 192 + d else (64 * c + d) % 256)
  }

  // Whole groups of the text, while there is room for three more octets.
  function Decoding(t: string, room: int): (r: seq<Octet>) {
    if |t| >= 4 && room > 2 && Sextet(t[0]) >= 0 && Sextet(t[1]) >= 0 then
      var g := GroupOctets(t[..4]);
      g + Decoding(t[4..], room - |g|)
    else []
  }

  // ---------- The buffers ----------

  // Groups that fit before the terminator when the buffer has `size` characters.
  function GroupsFitting(size: int): nat { if size > 5 then (size - 2) / 4 else 0 }

  function Covered(n: nat, size: int): nat {
    var m := 3 * GroupsFitting(size);
    if n < m then n else m
  }

  // Where the encoder stands after k groups.
  predicate AfterGroups(n: nat, size: int, k: nat, i: nat) { i == (if 3 * k <= n then 3 * k else n) && 4 * k < size }

  lemma CoveredStep(n: nat, size: int, k: nat, i: nat)
    requires size > 0 && AfterGroups(n, size, k, i) && i < n && 4 * k + 5 < size
    ensures i == 3 * k && i < Covered(n, size) && AfterGroups(n, size, k + 1, if i + 3 <= n then i + 3 else n)
    ensures (if i + 3 <= n then i + 3 else n) <= Covered(n, size) <= n
  {
  }

  lemma CoveredEnd(n: nat, size: int, k: nat, i: nat)
    requires size > 0 && AfterGroups(n, size, k, i) && i <= Covered(n, size) && (i >= n || 4 * k + 5 >= size)
    ensures i == Covered(n, size)
  {
  }

  // The next three octets, with zeros for the missing ones.
  method TakeGroup(s: seq<Octet>, p: nat) returns (i: nat, x: int, y: int, z: int, pad: int)
    requires p < |s|
    ensures i == (if p + 3 <= |s| then p + 3 else |s|) && pad == 3 - (i - p)
    ensures x == s[p] as int && y == (if p + 1 < |s| then s[p + 1] as int else 0)
    ensures z == if p + 2 < |s| then s[p + 2] as int else 0
  {
    i := p;
    y, z, pad := 0, 0, 0;
    x := s[i] as int;
    i := i + 1;
    if i < |s| {
      y := s[i] as int;
      i := i + 1;
    } else {
      pad := pad + 1;
    }
    if i < |s| {
      z := s[i] as int;
      i := i + 1;
    } else {
      pad := pad + 1;
    }
  }

  method StoreGroup(out: array<char>, o: nat, x: int, y: int, z: int, pad: int)
    requires o + 4 <= out.Length && 0 <= x < 256 && 0 <= y < 256 && 0 <= z < 256
    modifies out
    ensures out[..o + 4] == old(out[..o]) + Group(x, y, z, pad)
  {
    hide Letter;
    var v := 65536 * x + 256 * y + z;
    out[o] := Letter(v / 262144 % 64);
    out[o + 1] := Letter(v / 4096 % 64);
    out[o + 2] := if pad >= 2 then '=' else Letter(v / 64 % 64);
    out[o + 3] := if pad >= 1 then '=' else Letter(v % 64);
  }

  // base64_encode
  method Encode(s: seq<Octet>, out: array<char>) returns (o: nat)
    requires out.Length > 0
    modifies out
    ensures o < out.Length && out[..o] == Encoding(s[..Covered(|s|, out.Length)]) && out[o] == '\0'
  {
    hide Group, Encoding, Covered, AfterGroups;
    CoveredStart(|s|, out.Length);
    ghost var c, k := Covered(|s|, out.Length), 0;
    ghost var text := Encoding(s[..c]);
    var i := 0;
    o := 0;
    assert s[0..c] == s[..c];
    while i < |s| && o + 5 < out.Length
      invariant o == 4 * k && o < out.Length && i <= c <= |s| && AfterGroups(|s|, out.Length, k, i)
      invariant text == out[..o] + Encoding(s[i..c])
    {
      ghost var start, before := i, out[..o];
      CoveredStep(|s|, out.Length, k, i);
      var x, y, z, pad;
      i, x, y, z, pad := TakeGroup(s, i);
      EncodingStep(s, start, c, i, x, y, z, pad);
      StoreGroup(out, o, x, y, z, pad);
      assert (before + Group(x, y, z, pad)) + Encoding(s[i..c]) == before + (Group(x, y, z, pad) + Encoding(s[i..c]));
      o := o + 4;
      k := k + 1;
    }
    CoveredEnd(|s|, out.Length, k, i);
    assert s[i..c] == [];
    NothingEncoded();
    assert out[..o] + "" == out[..o];
    ghost var done := out[..o];
    out[o] := '\0';
    assert out[..o] == done;
  }

  lemma CoveredStart(n: nat, size: int)
    requires size > 0
    ensures AfterGroups(n, size, 0, 0) && 0 <= Covered(n, size) <= n
  {
  }

  lemma NothingEncoded()
    ensures Encoding([]) == ""
  {
  }

  lemma EncodingStep(s: seq<Octet>, p: nat, c: nat, i: nat, x: int, y: int, z: int, pad: int)
    requires p < c <= |s| && i == (if p + 3 <= |s| then p + 3 else |s|) <= c
    requires x == s[p] as int && y == (if p + 1 < |s| then s[p + 1] as int else 0)
    requires z == (if p + 2 < |s| then s[p + 2] as int else 0) && pad == 3 - (i - p)
    ensures Encoding(s[p..c]) == Group(x, y, z, pad) + Encoding(s[i..c])
  {
    var r := s[p..c];
    if i == p + 3 {
      assert r[3..] == s[i..c];
    }
  }

  // Whether another group is decoded.
  predicate More(t: string, room: int) { |t| >= 4 && room > 2 && Sextet(t[0]) >= 0 && Sextet(t[1]) >= 0 }

  lemma DecodingStep(t: string, i: nat, room: int)
    requires i <= |t|
    ensures More(t[i..], room) ==>
      var g := GroupOctets(t[i..i + 4]); Decoding(t[i..], room) == g + Decoding(t[i + 4..], room - |g|)
    ensures !More(t[i..], room) ==> Decoding(t[i..], room) == []
  {
    var r := t[i..];
    if More(r, room) {
      assert r[..4] == t[i..i + 4];
      assert r[4..] == t[i + 4..];
    }
  }

  // One group goes to the buffer, as far as there is room.
  method StoreOctets(out: array<char>, start: nat, t: string) returns (o: nat)
    requires start + 2 < out.Length && |t| == 4 && Sextet(t[0]) >= 0 && Sextet(t[1]) >= 0
    modifies out
    ensures o == start + |GroupOctets(t)| && out[..o] == old(out[..start]) + GroupOctets(t)
  {
    hide Sextet, Middle, Last, OctetOf;
    var a, b, c, d := Sextet(t[0]), Sextet(t[1]), Third(t), Fourth(t);
    SextetRange(t[0]);
    SextetRange(t[1]);
    o := start;
    out[o] := OctetOf((4 * a + b / 16) % 256);
    o := o + 1;
    if t[2] != '=' && o < out.Length {
      out[o] := Middle(b, c);
      o := o + 1;
    }
    if t[3] != '=' && o < out.Length {
      out[o] := Last(c, d);
      o := o + 1;
    }
  }

  lemma SextetRange(c: char)
    ensures -1 <= Sextet(c) < 64
  {
  }

  // base64_decode
  method Decode(t: string, out: array<char>) returns (o: nat)
    modifies out
    ensures o <= out.Length && out[..o] == Decoding(t, out.Length) && (o < out.Length ==> out[o] == '\0')
  {
    hide Decoding, GroupOctets, Sextet;
    o := 0;
    var i := 0;
    assert t[0..] == t;
    while i + 3 < |t| && o + 2 < out.Length
      invariant i <= |t| && o <= out.Length
      invariant Decoding(t, out.Length) == out[..o] + Decoding(t[i..], out.Length - o)
    {
      ghost var before, room := out[..o], out.Length - o;
      DecodingStep(t, i, room);
      if Sextet(t[i]) < 0 || Sextet(t[i + 1]) < 0 {
        break;
      }
      ghost var g := GroupOctets(t[i..i + 4]);
      assert (before + g) + Decoding(t[i + 4..], room - |g|) == before + (g + Decoding(t[i + 4..], room - |g|));
      o := StoreOctets(out, o, t[i..i + 4]);
      i := i + 4;
    }
    DecodingStep(t, i, out.Length - o);
    assert out[..o] + [] == out[..o];
    ghost var done := out[..o];
    if o < out.Length {
      out[o] := '\0';
    }
    assert out[..o] == done;
  }

  // ---------- Decoding undoes encoding ----------

  // The digits of a number in bases 4, 16, 64 and 4096.
  lemma Base4(q: int, r: int)
    requires 0 <= r < 4
    ensures (4 * q + r) / 4 == q
  {
  }

  lemma Base16(q: int, r: int)
    requires 0 <= r < 16
    ensures (16 * q + r) / 16 == q
  {
  }

  lemma Base64Digit(q: int, r: int)
    requires 0 <= r < 64
    ensures (64 * q + r) / 64 == q && (64 * q + r) % 64 == r
  {
  }

  lemma Base256(q: int, r: int)
    requires 0 <= r < 256
    ensures (256 * q + r) % 256 == r
  {
  }

  lemma Base4096(q: int, r: int)
    requires 0 <= r < 4096
    ensures (4096 * q + r) / 4096 == q
  {
  }

  lemma Base262144(q: int, r: int)
    requires 0 <= r < 262144
    ensures (262144 * q + r) / 262144 == q
  {
  }

  // 24 bits cut into four sextets a, b, c, d.
  lemma Sextets(a: int, b: int, c: int, d: int)
    requires 0 <= a < 64 && 0 <= b < 64 && 0 <= c < 64 && 0 <= d < 64
    ensures var v := 262144 * a + 4096 * b + 64 * c + d;
      v / 262144 % 64 == a && v / 4096 % 64 == b && v / 64 % 64 == c && v % 64 == d
  {
    Base262144(a, 4096 * b + 64 * c + d);
    Base4096(64 * a + b, 64 * c + d);
    Base64Digit(a, b);
    Base64Digit(4096 * a + 64 * b + c, d);
    Base64Digit(64 * a + b, c);
  }

  // One group: the sextets of three octets, given by their digits.
  lemma GroupIs(x1: int, x0: int, y1: int, y0: int, z1: int, z0: int, pad: int)
    requires 0 <= x1 < 64 && 0 <= x0 < 4 && 0 <= y1 < 16 && 0 <= y0 < 16 && 0 <= z1 < 4 && 0 <= z0 < 64
    ensures Group(4 * x1 + x0, 16 * y1 + y0, 64 * z1 + z0, pad) ==
      [Letter(x1), Letter(16 * x0 + y1), if pad >= 2 then '=' else Letter(4 * y0 + z1),
        if pad >= 1 then '=' else Letter(z0)]
  {
    hide Letter;
    Sextets(x1, 16 * x0 + y1, 4 * y0 + z1, z0);
    assert 65536 * (4 * x1 + x0) + 256 * (16 * y1 + y0) + (64 * z1 + z0)
        == 262144 * x1 + 4096 * (16 * x0 + y1) + 64 * (4 * y0 + z1) + z0;
  }

  // The octets back from their sextets.
  lemma OctetsBack(x1: int, x0: int, y1: int, y0: int, z1: int, z0: int)
    requires 0 <= x1 < 64 && 0 <= x0 < 4 && 0 <= y1 < 16 && 0 <= y0 < 16 && 0 <= z1 < 4 && 0 <= z0 < 64
    ensures (4 * x1 + (16 * x0 + y1) / 16) % 256 == 4 * x1 + x0
    ensures Middle(16 * x0 + y1, 4 * y0 + z1) == OctetOf(16 * y1 + y0)
    ensures Last(4 * y0 + z1, z0) == OctetOf(64 * z1 + z0)
  {
    hide OctetOf;
    Base16(x0, y1);
    Base4(y0, z1);
    Base256(0, 4 * x1 + x0);
    Base256(x0, 16 * y1 + y0);
    Base256(y0, 64 * z1 + z0);
    assert 16 * (16 * x0 + y1) + y0 == 256 * x0 + (16 * y1 + y0);
    assert 64 * (4 * y0 + z1) + z0 == 256 * y0 + (64 * z1 + z0);
  }

  // As many octets come back as went in.
  lemma GroupInverts(x: Octet, y: Octet, z: Octet, pad: int)
    requires 0 <= pad <= 2 && (pad >= 1 ==> z == '\0') && (pad == 2 ==> y == '\0')
    ensures var g := Group(x as int, y as int, z as int, pad);
      Sextet(g[0]) >= 0 && Sextet(g[1]) >= 0 && GroupOctets(g) == [x, y, z][..3 - pad]
  {
    hide Letter, Sextet, Group, Middle, Last;
    var x1, x0, y1, y0, z1, z0 :=
      x as int / 4, x as int % 4, y as int / 16, y as int % 16, z as int / 64, z as int % 64;
    GroupIs(x1, x0, y1, y0, z1, z0, pad);
    OctetsBack(x1, x0, y1, y0, z1, z0);
    SextetOfLetter(x1);
    SextetOfLetter(16 * x0 + y1);
    SextetOfLetter(4 * y0 + z1);
    SextetOfLetter(z0);
    var g := Group(x as int, y as int, z as int, pad);
    GroupBack(g, x, y, z, pad, x1, 16 * x0 + y1, 4 * y0 + z1, z0);
  }

  lemma GroupBack(g: string, x: Octet, y: Octet, z: Octet, pad: int, a: int, b: int, c: int, d: int)
    requires |g| == 4 && 0 <= pad <= 2 && 0 <= a < 64 && 0 <= b < 64 && 0 <= c < 64 && 0 <= d < 64
    requires Sextet(g[0]) == a && Sextet(g[1]) == b
    requires if pad >= 2 then g[2] == '=' else g[2] != '=' && Sextet(g[2]) == c
    requires if pad >= 1 then g[3] == '=' else g[3] != '=' && Sextet(g[3]) == d
    requires (4 * a + b / 16) % 256 == x as int && Middle(b, c) == y && Last(c, d) == z
    ensures GroupOctets(g) == [x, y, z][..3 - pad]
  {
    hide Sextet, Middle, Last;
  }

  // How much of n octets comes back from the first k characters through a buffer of `room`.
  function Recovered(n: nat, k: nat, room: int): nat {
    var groups := if room < 0 then 0 else if k / 4 < room / 3 then k / 4 else room / 3;
    if n < 3 * groups then n else 3 * groups
  }

  // Decoding a cut encoding gives a prefix of what was encoded, as long as whole groups allow.
  lemma {:induction false} DecodeOfCut(s: seq<Octet>, k: nat, room: int)
    requires k <= |Encoding(s)|
    ensures Decoding(Encoding(s)[..k], room) == s[..Recovered(|s|, k, room)]
    decreases |s|
  {
    hide Decoding, GroupOctets, Recovered, Sextet;
    var e := Encoding(s);
    var t := e[..k];
    if k >= 4 && room > 2 {
      FirstGroup(s);
      assert t[..4] == e[..4];
      DecodingFirst(t, room);
      if |s| < 3 {
        assert t[4..] == "";
        DecodingNone(t[4..], room - |s|);
        RecoveredAll(|s|, k, room);
        assert s[..|s|] + [] == s;
      } else {
        assert t[4..] == e[4..][..k - 4];
        EncodingTail(s);
        DecodeOfCut(s[3..], k - 4, room - 3);
        RecoveredStep(|s|, k, room);
        var r := Recovered(|s| - 3, k - 4, room - 3);
        RecoveredSmall(|s| - 3, k - 4, room - 3);
        assert s[..3] + s[3..][..r] == s[..3 + r];
      }
    } else {
      DecodingNone(t, room);
      RecoveredNone(|s|, k, room);
      assert s[..0] == [];
    }
  }

  lemma DecodingFirst(t: string, room: int)
    requires |t| >= 4 && room > 2 && Sextet(t[0]) >= 0 && Sextet(t[1]) >= 0
    ensures var g := GroupOctets(t[..4]); Decoding(t, room) == g + Decoding(t[4..], room - |g|)
  {
  }

  lemma DecodingNone(t: string, room: int)
    requires |t| < 4 || room <= 2
    ensures Decoding(t, room) == []
  {
  }

  lemma EncodingTail(s: seq<Octet>)
    requires |s| >= 3
    ensures |Encoding(s)| == 4 + |Encoding(s[3..])|
  {
  }

  lemma RecoveredSmall(n: nat, k: nat, room: int)
    ensures Recovered(n, k, room) <= n
  {
  }

  lemma FirstGroup(s: seq<Octet>)
    requires s != []
    ensures var e, n := Encoding(s), if |s| < 3 then |s| else 3;
      && |e| >= 4 && Sextet(e[0]) >= 0 && Sextet(e[1]) >= 0 && GroupOctets(e[..4]) == s[..n]
      && (if |s| < 3 then |e| == 4 else e[4..] == Encoding(s[3..]))
  {
    hide Group, GroupOctets, Sextet;
    var zero: Octet := '\0';
    var e := Encoding(s);
    if |s| == 1 {
      GroupInverts(s[0], zero, zero, 2);
      assert e[..4] == e;
    } else if |s| == 2 {
      GroupInverts(s[0], s[1], zero, 1);
      assert e[..4] == e;
    } else {
      GroupInverts(s[0], s[1], s[2], 0);
      assert e[..4] == Group(s[0] as int, s[1] as int, s[2] as int, 0);
    }
  }

  lemma RecoveredStep(n: nat, k: nat, room: int)
    requires n >= 3 && k >= 4 && room > 2
    ensures Recovered(n, k, room) == 3 + Recovered(n - 3, k - 4, room - 3)
  {
    assert (k - 4) / 4 == k / 4 - 1 && (room - 3) / 3 == room / 3 - 1;
  }

  lemma RecoveredAll(n: nat, k: nat, room: int)
    requires n < 3 && k >= 4 && room > 2
    ensures Recovered(n, k, room) == n
  {
  }

  lemma RecoveredWhole(n: nat, room: nat)
    ensures Recovered(n, 4 * ((n + 2) / 3), room) == n <==> n <= 3 * (room / 3)
    ensures Recovered(n, 4 * ((n + 2) / 3), room) <= n
  {
    var g := (n + 2) / 3;
    assert 4 * g / 4 == g;
  }

  lemma RecoveredNone(n: nat, k: nat, room: int)
    requires k < 4 || room <= 2
    ensures Recovered(n, k, room) == 0
  {
  }

  lemma {:induction false} EncodingShape(s: seq<Octet>)
    ensures |Encoding(s)| == 4 * ((|s| + 2) / 3) && forall k | 0 <= k < |Encoding(s)| :: Plain(Encoding(s)[k])
    decreases |s|
  {
    hide Group, Plain;
    if |s| == 1 {
      GroupPlain(s[0] as int, 0, 0, 2);
    } else if |s| == 2 {
      GroupPlain(s[0] as int, s[1] as int, 0, 1);
    } else if |s| > 2 {
      GroupPlain(s[0] as int, s[1] as int, s[2] as int, 0);
      EncodingShape(s[3..]);
    }
  }

  lemma GroupPlain(x: int, y: int, z: int, pad: int)
    requires 0 <= x < 256 && 0 <= y < 256 && 0 <= z < 256
    ensures forall k | 0 <= k < 4 :: Plain(Group(x, y, z, pad)[k])
  {
    hide Letter, Sextet;
    var v := 65536 * x + 256 * y + z;
    SextetOfLetter(v / 262144 % 64);
    SextetOfLetter(v / 4096 % 64);
    SextetOfLetter(v / 64 % 64);
    SextetOfLetter(v % 64);
  }

  // The round trip through a buffer of `room` is exact if and only if whole groups leave room for it.
  lemma RoundTrip(s: seq<Octet>, room: nat)
    ensures Decoding(Encoding(s), room) == s[..Recovered(|s|, |Encoding(s)|, room)]
    ensures Decoding(Encoding(s), room) == s <==> |s| <= 3 * (room / 3)
  {
    var e := Encoding(s);
    hide Decoding, Encoding, Recovered;
    EncodingShape(s);
    DecodeOfCut(s, |e|, room);
    assert e[..|e|] == e;
    RecoveredWhole(|s|, room);
    var r := Recovered(|s|, |e|, room);
    assert s[..r] == s <==> r == |s|;
  }
}
