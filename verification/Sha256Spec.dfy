/** SHA-256 as published: section 4.1.2 (functions), 4.2.2 (constants), 5.1.1 (padding),
    5.3.3 (initial value) and 6.2.2 (hash computation) of FIPS 180-4. HMAC is section 2 of
    RFC 2104 and Pbkdf2 is block 1 of section 5.2 of RFC 8018. These definitions do not
    mention a buffer, a cursor or a running bit count. */
module Sha256Spec {
  import opened BlockStream

  type Word = bv32

  type Hash = h: seq<Word> | |h| == 8 witness seq(8, i => 0)

  const K: seq<Word> := [
    0x428a2f98, 0x71374491, 0xb5c0fbcf, 0xe9b5dba5, 0x3956c25b, 0x59f111f1, 0x923f82a4, 0xab1c5ed5,
    0xd807aa98, 0x12835b01, 0x243185be, 0x550c7dc3, 0x72be5d74, 0x80deb1fe, 0x9bdc06a7, 0xc19bf174,
    0xe49b69c1, 0xefbe4786, 0x0fc19dc6, 0x240ca1cc, 0x2de92c6f, 0x4a7484aa, 0x5cb0a9dc, 0x76f988da,
    0x983e5152, 0xa831c66d, 0xb00327c8, 0xbf597fc7, 0xc6e00bf3, 0xd5a79147, 0x06ca6351, 0x14292967,
    0x27b70a85, 0x2e1b2138, 0x4d2c6dfc, 0x53380d13, 0x650a7354, 0x766a0abb, 0x81c2c92e, 0x92722c85,
    0xa2bfe8a1, 0xa81a664b, 0xc24b8b70, 0xc76c51a3, 0xd192e819, 0xd6990624, 0xf40e3585, 0x106aa070,
    0x19a4c116, 0x1e376c08, 0x2748774c, 0x34b0bcb5, 0x391c0cb3, 0x4ed8aa4a, 0x5b9cca4f, 0x682e6ff3,
    0x748f82ee, 0x78a5636f, 0x84c87814, 0x8cc70208, 0x90befffa, 0xa4506ceb, 0xbef9a3f7, 0xc67178f2]

  const INITIAL: Hash := [
    0x6a09e667, 0xbb67ae85, 0x3c6ef372, 0xa54ff53a, 0x510e527f, 0x9b05688c, 0x1f83d9ab, 0x5be0cd19]

  function Ch(x: Word, y: Word, z: Word): Word { (x & y) ^ (!x & z) }

  function Maj(x: Word, y: Word, z: Word): Word { (x & y) ^ (x & z) ^ (y & z) }

  // The four sigma functions of section 4.1.2; a rotation is two shifts, as in section 3.2.
  function BigSigma0(x: Word): Word {
    ((x >> 2) | (x << 30)) ^ ((x >> 13) | (x << 19)) ^ ((x >> 22) | (x << 10))
  }

  function BigSigma1(x: Word): Word {
    ((x >> 6) | (x << 26)) ^ ((x >> 11) | (x << 21)) ^ ((x >> 25) | (x << 7))
  }

  function SmallSigma0(x: Word): Word {
    ((x >> 7) | (x << 25)) ^ ((x >> 18) | (x << 14)) ^ (x >> 3)
  }

  function SmallSigma1(x: Word): Word {
    ((x >> 17) | (x << 15)) ^ ((x >> 19) | (x << 13)) ^ (x >> 10)
  }

  // The big-endian word made of four bytes.
  function WordOf(b0: Byte, b1: Byte, b2: Byte, b3: Byte): Word {
    (b0 as Word << 24) | (b1 as Word << 16) | (b2 as Word << 8) | b3 as Word
  }

  function ScheduleNext(w2: Word, w7: Word, w15: Word, w16: Word): Word {
    SmallSigma1(w2) + w7 + SmallSigma0(w15) + w16
  }

  // Word t of the message schedule (section 6.2.2, step 1).
  function Schedule(block: seq<Byte>, t: nat): Word
    requires |block| == 64 && t < 64
  {
    if t < 16 then WordOf(block[4 * t], block[4 * t + 1], block[4 * t + 2], block[4 * t + 3])
    else ScheduleNext(Schedule(block, t - 2), Schedule(block, t - 7), Schedule(block, t - 15), Schedule(block, t - 16))
  }

  // The eight working variables.
  datatype Working = Working(a: Word, b: Word, c: Word, d: Word, e: Word, f: Word, g: Word, h: Word)

  // The two temporary words of section 6.2.2, step 3.
  function Temp1(e: Word, f: Word, g: Word, h: Word, k: Word, w: Word): Word {
    h + BigSigma1(e) + Ch(e, f, g) + k + w
  }

  function Temp2(a: Word, b: Word, c: Word): Word { BigSigma0(a) + Maj(a, b, c) }

  function Plus(x: Word, y: Word): Word { x + y }

  // One round of section 6.2.2, step 3.
  function Round(v: Working, k: Word, w: Word): Working {
    var t1 := Temp1(v.e, v.f, v.g, v.h, k, w);
    var t2 := Temp2(v.a, v.b, v.c);
    Working(Plus(t1, t2), v.a, v.b, v.c, Plus(v.d, t1), v.e, v.f, v.g)
  }

  function Rounds(v: Working, block: seq<Byte>, t: nat): Working
    requires |block| == 64 && t <= 64
  {
    if t == 0 then v else Round(Rounds(v, block, t - 1), K[t - 1], Schedule(block, t - 1))
  }

  function Words(v: Working): (r: seq<Word>)
    ensures |r| == 8
  {
    [v.a, v.b, v.c, v.d, v.e, v.f, v.g, v.h]
  }

  // Section 6.2.2, step 4.
  function AddWords(h: seq<Word>, w: seq<Word>): (r: seq<Word>)
    requires |h| == |w| == 8
    ensures |r| == 8
  {
    seq(8, i requires 0 <= i < 8 => Plus(h[i], w[i]))
  }

  // The hash value after one more block (section 6.2.2, steps 1 to 4).
  function Compress(h: Hash, block: Block): (r: Hash) {
    AddWords(h, Words(Rounds(Working(h[0], h[1], h[2], h[3], h[4], h[5], h[6], h[7]), block, |block|)))
  }

  function Zeros(n: nat): (r: seq<Byte>)
    ensures |r| == n
  {
    seq(n, i => 0)
  }

  function LowByte(n: nat): Byte { (n % 0x100) as Byte }

  // The k lowest bytes of a number, the most significant first.
  function BytesBigEndian(n: nat, k: nat): (r: seq<Byte>)
    ensures |r| == k
  {
    if k == 0 then [] else BytesBigEndian(n / 0x100, k - 1) + [LowByte(n)]
  }

  function LengthField(n: nat): (r: seq<Byte>)
    ensures |r| == 8
  {
    BytesBigEndian(n, 8)
  }

  const TWO64 := 0x1_0000_0000_0000_0000

  // The number of whole zero bytes between the marker byte and the length field.
  function PadZeros(len: nat): nat { (119 - len % 64) % 64 }

  // Section 5.1.1, for messages of a whole number of bytes: the marker bit, the zero bits and the
  // length in bits. The standard stops at 2^64 bits; past that the length is taken modulo 2^64.
  function Trailer(len: nat): (r: seq<Byte>)
    ensures |r| == PadZeros(len) + 9
  {
    [0x80] + Zeros(PadZeros(len)) + LengthField(8 * len % TWO64)
  }

  function Pad(m: seq<Byte>): (r: seq<Byte>) { m + Trailer(|m|) }

  function BytesOf(w: Word): (r: seq<Byte>)
    ensures |r| == 4
  {
    [(w >> 24) as Byte, ((w >> 16) & 0xff) as Byte, ((w >> 8) & 0xff) as Byte, (w & 0xff) as Byte]
  }

  // The bytes of the first n words, in order.
  function DigestPrefix(h: seq<Word>, n: nat): (r: seq<Byte>)
    requires n <= |h|
    ensures |r| == 4 * n
  {
    if n == 0 then [] else DigestPrefix(h, n - 1) + BytesOf(h[n - 1])
  }

  function Digest(h: Hash): (r: seq<Byte>)
    ensures |r| == 32
  {
    DigestPrefix(h, |h|)
  }

  function Sha256(m: seq<Byte>): (r: seq<Byte>)
    ensures |r| == 32
  {
    Digest(Fold<Hash>(Compress, INITIAL, Pad(m), |Pad(m)| / 64))
  }

  function XorWith(s: seq<Byte>, mask: Byte): (r: seq<Byte>)
    ensures |r| == |s|
  {
    seq(|s|, i requires 0 <= i < |s| => s[i] ^ mask)
  }

  function Xor(a: Byte, b: Byte): Byte { a ^ b }

  function XorBytes(s: seq<Byte>, t: seq<Byte>): (r: seq<Byte>)
    requires |s| == |t|
    ensures |r| == |s|
  {
    seq(|s|, i requires 0 <= i < |s| => Xor(s[i], t[i]))
  }

  // RFC 2104: the key, hashed first when longer than a block, zero-padded to a block.
  function BlockKey(key: seq<Byte>): (r: seq<Byte>)
    ensures |r| == 64
  {
    var k := if |key| > 64 then Sha256(key) else key;
    k + Zeros(64 - |k|)
  }

  function Hmac(key: seq<Byte>, text: seq<Byte>): (r: seq<Byte>)
    ensures |r| == 32
  {
    Sha256(XorWith(BlockKey(key), 0x5c) + Sha256(XorWith(BlockKey(key), 0x36) + text))
  }

  // RFC 8018: U_1 = PRF(P, S || INT(1)), U_i = PRF(P, U_{i-1}).
  function PrfChain(password: seq<Byte>, salt: seq<Byte>, i: nat): (r: seq<Byte>)
    requires i >= 1
    ensures |r| == 32
  {
    if i == 1 then Hmac(password, salt + [0, 0, 0, 1]) else Hmac(password, PrfChain(password, salt, i - 1))
  }

  // T_1 = U_1 xor ... xor U_c.
  function Pbkdf2(password: seq<Byte>, salt: seq<Byte>, c: nat): (r: seq<Byte>)
    requires c >= 1
    ensures |r| == 32
  {
    if c == 1 then PrfChain(password, salt, 1)
    else XorBytes(Pbkdf2(password, salt, c - 1), PrfChain(password, salt, c))
  }

  // The zero bytes fill up the last block, or this one and the next.
  lemma PadZerosSplit(n: nat, r: nat)
    requires r < 64
    ensures PadZeros(64 * n + r) == if r < 56 then 55 - r else 119 - r
  {
    assert (64 * n + r) % 64 == r;
  }

  // The padding is the one section 5.1.1 asks for: with k zero bits after the marker bit the
  // length is congruent to 448 modulo 512, and no smaller k will do.
  lemma PadIsMinimal(len: nat, k: nat)
    ensures (8 * len + 1 + (8 * PadZeros(len) + 7)) % 512 == 448
    ensures k < 8 * PadZeros(len) + 7 ==> (8 * len + 1 + k) % 512 != 448
  {
    var n, r := len / 64, len % 64;
    assert len == 64 * n + r;
    PadZerosSplit(n, r);
    hide PadZeros;
    var m := if r < 56 then n else n + 1;
    assert 8 * len + 1 + (8 * PadZeros(len) + 7) == 512 * m + 448;
    if k < 8 * PadZeros(len) + 7 {
      BetweenPads(m, 8 * len + 1 + k);
    }
  }

  lemma BetweenPads(m: nat, x: nat)
    requires 512 * m - 64 < x < 512 * m + 448
    ensures x % 512 != 448
  {
    var q := x / 512;
    assert x == 512 * q + x % 512;
  }

  function ByteValue(b: Byte): nat { b as int }

  lemma LowByteValue(n: nat)
    ensures ByteValue(LowByte(n)) == n % 0x100
  {
    ByteRoundTrip(n % 0x100);
  }

  lemma ByteRoundTrip(m: int)
    requires 0 <= m < 0x100
    ensures (m as Byte) as int == m
  {
    var k := (m as Byte) as int;
    if k < m {
    } else if k > m {
    }
  }

  // The number read from bytes, the most significant first.
  function BigEndian(s: seq<Byte>): nat {
    if |s| == 0 then 0 else 0x100 * BigEndian(s[..|s| - 1]) + ByteValue(s[|s| - 1])
  }

  function Power256(k: nat): nat { if k == 0 then 1 else 0x100 * Power256(k - 1) }

  lemma {:induction false} BytesValue(n: nat, k: nat)
    requires n < Power256(k)
    ensures BigEndian(BytesBigEndian(n, k)) == n
  {
    hide LowByte, ByteValue;
    if k > 0 {
      LowByteValue(n);
      BytesValue(n / 0x100, k - 1);
      var s := BytesBigEndian(n, k);
      assert s[..k - 1] == BytesBigEndian(n / 0x100, k - 1);
    }
  }

  // The length field of a message is its length.
  lemma LengthFieldValue(n: nat)
    requires n < TWO64
    ensures BigEndian(LengthField(n)) == n
  {
    assert Power256(8) == 0x100 * (0x100 * (0x100 * (0x100 * Power256(4))));
    assert Power256(4) == 0x100 * (0x100 * (0x100 * (0x100 * Power256(0))));
    BytesValue(n, 8);
  }

  // The pieces of a message put together.
  function Join(pieces: seq<seq<Byte>>): seq<Byte> {
    if |pieces| == 0 then [] else Join(pieces[..|pieces| - 1]) + pieces[|pieces| - 1]
  }

  // The hash value h and the partial block hold the message m, n blocks of it compressed.
  ghost predicate Holds(m: seq<Byte>, n: nat, h: Hash, partial: seq<Byte>) {
    Represents<Hash>(Compress, INITIAL, m, n, h, partial)
  }

  lemma HoldsByte(m: seq<Byte>, n: nat, h: Hash, partial: seq<Byte>, b: Byte)
    requires Holds(m, n, h, partial) && |partial| < 63
    ensures Holds(m + [b], n, h, partial + [b])
  {
    RepresentsByte<Hash>(Compress, INITIAL, m, n, h, partial, b);
  }

  lemma HoldsBlock(m: seq<Byte>, n: nat, h: Hash, partial: seq<Byte>, b: Byte)
    requires Holds(m, n, h, partial) && |partial| == 63
    ensures Holds(m + [b], n + 1, Compress(h, partial + [b]), [])
  {
    RepresentsBlock<Hash>(Compress, INITIAL, m, n, h, partial, b);
  }

  // The bit count of the whole blocks, with the bits of the partial block, is that of the message.
  lemma HoldsBits(m: seq<Byte>, n: nat, h: Hash, partial: seq<Byte>)
    requires Holds(m, n, h, partial)
    ensures (512 * n % TWO64 + |partial| * 8) % TWO64 == 8 * |m| % TWO64
  {
    AddModulo(512 * n, |partial| * 8);
    assert 8 * |m| == 512 * n + |partial| * 8;
  }

  lemma AddModulo(a: nat, b: nat)
    ensures (a % TWO64 + b) % TWO64 == (a + b) % TWO64
  {
    var q := a / TWO64;
    assert a + b == TWO64 * q + (a % TWO64 + b);
  }

  // With room for the marker and the length, one more compression gives the digest.
  lemma HoldsFinishOne(m: seq<Byte>, n: nat, h: Hash, partial: seq<Byte>)
    requires Holds(m, n, h, partial) && |partial| < 56
    ensures var tail := [0x80] + Zeros(55 - |partial|) + LengthField(8 * |m| % TWO64);
      Sha256(m) == Digest(Compress(h, partial + tail))
  {
    hide Compress, LengthField, Digest;
    PadZerosSplit(n, |partial|);
    FinishOne<Hash>(Compress, INITIAL, m, n, h, partial, Trailer(|m|));
  }

  // Without it, the marker ends one block and the length ends the next.
  lemma HoldsFinishTwo(m: seq<Byte>, n: nat, h: Hash, partial: seq<Byte>)
    requires Holds(m, n, h, partial) && |partial| >= 56
    ensures Sha256(m) == Digest(Compress(Compress(h, partial + [0x80] + Zeros(63 - |partial|)),
                                         Zeros(56) + LengthField(8 * |m| % TWO64)))
  {
    hide Compress, LengthField, Digest;
    PadZerosSplit(n, |partial|);
    var tail, last := [0x80] + Zeros(63 - |partial|), Zeros(56) + LengthField(8 * |m| % TWO64);
    assert Zeros(119 - |partial|) == Zeros(63 - |partial|) + Zeros(56);
    assert Trailer(|m|) == tail + last;
    assert Pad(m) == m + tail + last;
    assert partial + tail == partial + [0x80] + Zeros(63 - |partial|);
    FinishTwo<Hash>(Compress, INITIAL, m, n, h, partial, tail, last);
  }
}
