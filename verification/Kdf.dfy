/** crypto_utils.c: HMAC and PBKDF2 on top of the streaming context, the hex codec and the
    comparison of secrets. */
module Kdf {
  import opened BlockStream
  import opened Sha256Spec
  import opened Sha256Stream
  import opened Wrappers

  // One whole message hashed in two updates, as hmac_sha256 does.
  method HashPair(first: seq<Byte>, second: seq<Byte>, out: array<Byte>)
    requires out.Length >= 32
    modifies out
    ensures out[..32] == Sha256(first + second)
    ensures out[32..] == old(out[32..])
  {
    hide Sha256, Holds;
    var ctx := new Sha256Ctx();
    ctx.Update(first);
    ctx.Update(second);
    assert ctx.message == first + second;
    ctx.Final(out);
  }

  // The key of hmac_sha256 after it has been hashed when too long and copied into a zeroed block.
  method PrepareKey(key: seq<Byte>) returns (block: seq<Byte>)
    ensures block == BlockKey(key)
  {
    hide Sha256;
    var k := key;
    if |key| > 64 {
      var tk := new Byte[32];
      HashPair(key, [], tk);
      assert key + [] == key;
      k := tk[..32];
    }
    block := k + Zeros(64 - |k|);
  }

  // hmac_sha256. The output buffer may be the message buffer.
  method HmacSha256(key: seq<Byte>, msg: array<Byte>, msgLen: nat, out: array<Byte>)
    requires msgLen <= msg.Length && out.Length >= 32
    modifies out
    ensures out[..32] == Hmac(key, old(msg[..msgLen]))
    ensures out[32..] == old(out[32..])
  {
    hide Sha256, BlockKey;
    var block := PrepareKey(key);
    var inner := new Byte[32];
    HashPair(XorWith(block, 0x36), msg[..msgLen], inner);
    HashPair(XorWith(block, 0x5c), inner[..32], out);
  }

  // t[j] ^= u[j] for the 32 bytes.
  method XorInto(t: array<Byte>, u: array<Byte>)
    requires t.Length == u.Length == 32 && t != u
    modifies t
    ensures t[..] == XorBytes(old(t[..]), u[..])
  {
    hide Xor;
    for j := 0 to 32
      invariant forall k | 0 <= k < j :: t[k] == Xor(old(t[k]), u[k])
      invariant forall k | j <= k < 32 :: t[k] == old(t[k])
    {
      t[j] := Xor(t[j], u[j]);
    }
  }

  // pbkdf2_sha256_hex: the first derived block in lower-case hex, or an error.
  method Pbkdf2Hex(password: seq<Byte>, salt: seq<Byte>, iters: int) returns (r: Option<string>)
    ensures r.None? <==> |salt| == 0 || |salt| > 124 || iters < 10000
    ensures r.Some? ==> r.value == HexOf(Pbkdf2(password, salt, iters))
  {
    hide Hmac;
    if |salt| == 0 || iters < 10000 || |salt| + 4 > 128 {
      return None;
    }
    var block := SaltBlock(salt);
    var u, t := new Byte[32], new Byte[32];
    HmacSha256(password, block, |salt| + 4, u);
    assert u[..] == u[..32];
    forall j | 0 <= j < 32 {
      t[j] := u[j];
    }
    assert t[..] == u[..];
    Iterate(password, salt, iters, u, t);
    r := Some(HexOf(t[..]));
  }

  // The salt and the number of the first block.
  method SaltBlock(salt: seq<Byte>) returns (block: array<Byte>)
    requires |salt| <= 124
    ensures fresh(block) && block.Length == 128 && block[..|salt| + 4] == salt + [0, 0, 0, 1]
  {
    block := new Byte[128];
    for i := 0 to |salt|
      invariant block[..i] == salt[..i]
    {
      block[i] := salt[i];
    }
    block[|salt|], block[|salt| + 1], block[|salt| + 2], block[|salt| + 3] := 0, 0, 0, 1;
  }

  // The loop from the second iteration on, from the first value in both buffers.
  method Iterate(password: seq<Byte>, salt: seq<Byte>, iters: int, u: array<Byte>, t: array<Byte>)
    requires iters >= 1 && u.Length == t.Length == 32 && u != t && t[..] == u[..] == PrfChain(password, salt, 1)
    modifies u, t
    ensures t[..] == Pbkdf2(password, salt, iters)
  {
    hide Hmac, XorBytes;
    for i := 2 to iters + 1
      invariant u[..] == PrfChain(password, salt, i - 1)
      invariant t[..] == Pbkdf2(password, salt, i - 1)
    {
      assert u[..32] == u[..];
      HmacSha256(password, u, 32, u);
      assert u[..32] == u[..];
      XorInto(t, u);
    }
  }

  const HEX_DIGITS := "0123456789abcdef"

  // The hex loop of sha256_hex and pbkdf2_sha256_hex.
  function HexOf(bytes: seq<Byte>): (r: string)
    ensures |r| == 2 * |bytes|
  {
    if |bytes| == 0 then []
    else HexOf(bytes[..|bytes| - 1])
         + [HEX_DIGITS[bytes[|bytes| - 1] as int / 16], HEX_DIGITS[bytes[|bytes| - 1] as int % 16]]
  }

  // The value of a hex digit of either case.
  function DigitValue(c: char): (r: Option<nat>)
    ensures r.Some? ==> r.value < 16
  {
    if '0' <= c <= '9' then Some(c as int - '0' as int)
    else if 'a' <= c <= 'f' then Some(c as int - 'a' as int + 10)
    else if 'A' <= c <= 'F' then Some(c as int - 'A' as int + 10)
    else None
  }

  // Two hex digits stand for each byte.
  ghost predicate IsHexOf(hex: string, bytes: seq<Byte>) {
    && |hex| == 2 * |bytes|
    && (forall k | 0 <= k < |bytes| :: PairIs(hex, k, bytes[k]))
  }

  ghost predicate PairIs(hex: string, k: nat, b: Byte)
    requires 2 * k + 1 < |hex|
  {
    DigitValue(hex[2 * k]) == Some(b as int / 16) && DigitValue(hex[2 * k + 1]) == Some(b as int % 16)
  }

  ghost predicate AllHex(hex: string) { forall k | 0 <= k < |hex| :: DigitValue(hex[k]).Some? }

  lemma PairByte(hi: nat, lo: nat)
    requires hi < 16 && lo < 16
    ensures ((16 * hi + lo) as Byte) as int == 16 * hi + lo
    ensures (16 * hi + lo) / 16 == hi && (16 * hi + lo) % 16 == lo
  {
  }

  // hex_decode
  method HexDecode(hex: string, capacity: nat) returns (r: Option<seq<Byte>>)
    ensures r.Some? <==> |hex| % 2 == 0 && |hex| / 2 <= capacity && AllHex(hex)
    ensures r.Some? ==> IsHexOf(hex, r.value)
  {
    hide DigitValue;
    if |hex| % 2 != 0 {
      return None;
    }
    var bytes := |hex| / 2;
    if bytes > capacity {
      return None;
    }
    var out: seq<Byte> := [];
    for i := 0 to bytes
      invariant |out| == i && forall k | 0 <= k < 2 * i :: DigitValue(hex[k]).Some?
      invariant forall k | 0 <= k < i :: PairIs(hex, k, out[k])
    {
      var hi, lo := DigitValue(hex[2 * i]), DigitValue(hex[2 * i + 1]);
      if hi.None? || lo.None? {
        return None;
      }
      PairByte(hi.value, lo.value);
      out := out + [(16 * hi.value + lo.value) as Byte];
    }
    r := Some(out);
  }

  lemma DigitsInvert(d: nat)
    requires d < 16
    ensures DigitValue(HEX_DIGITS[d]) == Some(d)
  {
  }

  // Encoding gives two digits for each byte.
  lemma {:induction false} HexOfIsHex(bytes: seq<Byte>)
    ensures IsHexOf(HexOf(bytes), bytes)
  {
    if |bytes| > 0 {
      var n := |bytes| - 1;
      HexOfIsHex(bytes[..n]);
      DigitsInvert(bytes[n] as int / 16);
      DigitsInvert(bytes[n] as int % 16);
      var hex, front := HexOf(bytes), HexOf(bytes[..n]);
      forall k | 0 <= k < |bytes|
        ensures PairIs(hex, k, bytes[k])
      {
        if k < n {
          assert PairIs(front, k, bytes[..n][k]);
          assert hex[2 * k] == front[2 * k] && hex[2 * k + 1] == front[2 * k + 1];
        }
      }
    }
  }

  lemma HexOfAllHex(bytes: seq<Byte>)
    ensures AllHex(HexOf(bytes))
  {
    hide DigitValue, HexOf;
    HexOfIsHex(bytes);
    forall k | 0 <= k < 2 * |bytes|
      ensures DigitValue(HexOf(bytes)[k]).Some?
    {
      assert PairIs(HexOf(bytes), k / 2, bytes[k / 2]);
    }
  }

  lemma SameByte(hex: string, k: nat, a: Byte, b: Byte)
    requires 2 * k + 1 < |hex| && PairIs(hex, k, a) && PairIs(hex, k, b)
    ensures a == b
  {
    hide DigitValue;
    assert a as int == b as int;
  }

  // Decoding undoes encoding: the decoder accepts every encoding that fits, and the encoded bytes
  // are the only ones that meet its promise.
  lemma HexRoundTrip(bytes: seq<Byte>, decoded: seq<Byte>)
    ensures AllHex(HexOf(bytes)) && |HexOf(bytes)| % 2 == 0 && |HexOf(bytes)| / 2 == |bytes|
    ensures IsHexOf(HexOf(bytes), decoded) <==> decoded == bytes
  {
    hide PairIs, AllHex, HexOf;
    HexOfAllHex(bytes);
    HexOfIsHex(bytes);
    if IsHexOf(HexOf(bytes), decoded) {
      forall k | 0 <= k < |bytes|
        ensures decoded[k] == bytes[k]
      {
        SameByte(HexOf(bytes), k, bytes[k], decoded[k]);
      }
    }
  }

  // secure_equals on two C strings, which hold no zero byte. The lengths are compared modulo 256
  // only, yet the result is exactly equality.
  method SecureEquals(a: seq<Byte>, b: seq<Byte>) returns (eq: bool)
    requires 0 !in a && 0 !in b
    ensures eq <==> a == b
  {
    var diff: Byte := (|a| % 0x100) as Byte ^ (|b| % 0x100) as Byte;
    var max := if |a| > |b| then |a| else |b|;
    ghost var lengths := diff;
    for i := 0 to max
      invariant diff == 0 <==> lengths == 0 && forall k | 0 <= k < i :: At(a, k) == At(b, k)
    {
      var ca, cb := At(a, i), At(b, i);
      XorZero(ca, cb);
      OrZero(diff, ca ^ cb);
      diff := diff | (ca ^ cb);
    }
    if diff == 0 {
      PaddedEqual(a, b);
    }
    eq := diff == 0;
  }

  // A shorter string reads as zero where the longer one does not.
  lemma DifferWhereShorterEnds(a: seq<Byte>, b: seq<Byte>)
    requires |a| < |b| && 0 !in b
    ensures At(a, |a|) != At(b, |a|)
  {
    assert b[|a|] in b;
  }

  // Strings without a zero byte that agree when padded with zero bytes are equal.
  lemma PaddedEqual(a: seq<Byte>, b: seq<Byte>)
    requires 0 !in a && 0 !in b
    requires forall k | 0 <= k < |a| || 0 <= k < |b| :: At(a, k) == At(b, k)
    ensures a == b
  {
    if |a| < |b| {
      DifferWhereShorterEnds(a, b);
      assert false;
    } else if |b| < |a| {
      DifferWhereShorterEnds(b, a);
      assert false;
    } else {
      forall k | 0 <= k < |a|
        ensures a[k] == b[k]
      {
        assert At(a, k) == At(b, k);
      }
    }
  }

  function At(s: seq<Byte>, i: nat): Byte { if i < |s| then s[i] else 0 }

  lemma XorZero(x: Byte, y: Byte)
    ensures x ^ y == 0 <==> x == y
  {
  }

  lemma OrZero(x: Byte, y: Byte)
    ensures x | y == 0 <==> x == 0 && y == 0
  {
  }
}
