/** logger.c: its own copy of the streaming hash and HMAC, which counts bits byte by byte and
    pads in a different order. It meets the same definitions, so the two copies agree. */
module Logger {
  import opened BlockStream
  import opened Sha256Spec
  import opened Sha256Stream

  // The length in bits, as the counter keeps it.
  function BitsOf(len: nat): nat { 8 * len % TWO64 }

  lemma BitsNext(len: nat)
    ensures (BitsOf(len) + 8) % TWO64 == BitsOf(len + 1)
  {
  }

  class S256 {
    const d: array<Byte>
    const s: array<Word>
    var b: nat
    var n: nat
    ghost var message: seq<Byte>
    ghost var blocks: nat

    ghost predicate Valid()
      reads this, d, s
    {
      && d.Length == 64 && s.Length == 8 && n < 64
      && Holds(message, blocks, s[..], d[..n])
      && b == BitsOf(|message|)
    }

    // s256_init
    constructor ()
      ensures Valid() && message == []
      ensures fresh(d) && fresh(s)
    {
      d := new Byte[64];
      s := new Word[8](i requires 0 <= i < 8 => INITIAL[i]);
      b := 0;
      n := 0;
      message := [];
      blocks := 0;
      new;
      assert s[..] == INITIAL;
    }

    // The body of the loop of s256_upd.
    method Absorb(x: Byte)
      requires Valid()
      modifies this, d, s
      ensures Valid() && message == old(message) + [x]
    {
      hide Compress, Holds, BitsOf;
      ghost var h, partial := s[..], d[..n];
      BitsNext(|message|);
      d[n] := x;
      n := n + 1;
      b := (b + 8) % TWO64;
      assert d[..n] == partial + [x];
      if n == 64 {
        HoldsBlock(message, blocks, h, partial, x);
        assert d[..] == partial + [x];
        Transform(s, d[..]);
        n := 0;
        blocks := blocks + 1;
        assert d[..n] == [];
      } else {
        HoldsByte(message, blocks, h, partial, x);
      }
      message := message + [x];
    }

    // s256_upd
    method Update(input: seq<Byte>)
      requires Valid()
      modifies this, d, s
      ensures Valid() && message == old(message) + input
    {
      hide Compress, Holds;
      for i := 0 to |input|
        invariant Valid() && message == old(message) + input[..i]
      {
        Absorb(input[i]);
      }
    }

    // while (n < limit) d[n++] = 0
    method ZeroUpTo(from: nat, limit: nat)
      requires d.Length == 64 && from <= limit <= 64
      modifies d
      ensures d[..limit] == old(d[..from]) + Zeros(limit - from)
    {
      var i := from;
      while i < limit
        invariant from <= i <= limit && d[..i] == old(d[..from]) + Zeros(i - from)
      {
        d[i] := 0;
        i := i + 1;
      }
    }

    // The padding of s256_fin. What is left to compress is the first 56 bytes and the length.
    method PadMessage()
      requires Valid()
      modifies d, s
      ensures Sha256(message) == Digest(Compress(s[..], d[..56] + LengthField(8 * |message| % TWO64)))
    {
      hide Compress, Holds, LengthField, Digest, Sha256, Zeros;
      ghost var h, partial := s[..], d[..n];
      var i := n;
      d[i] := 0x80;
      i := i + 1;
      assert d[..i] == partial + [0x80] && s[..] == h;
      if i > 56 {
        HoldsFinishTwo(message, blocks, h, partial);
        ZeroUpTo(i, 64);
        assert d[..] == d[..64];
        Transform(s, d[..]);
        i := 0;
        ZeroUpTo(i, 56);
        assert d[..56] == Zeros(56);
      } else {
        HoldsFinishOne(message, blocks, h, partial);
        ZeroUpTo(i, 56);
        assert d[..56] + LengthField(8 * |message| % TWO64)
            == partial + ([0x80] + Zeros(55 - |partial|) + LengthField(8 * |message| % TWO64));
      }
    }

    // s256_fin
    method Finish(o: array<Byte>)
      requires Valid() && o.Length >= 32 && o != d
      modifies d, s, o
      ensures o[..32] == Sha256(message)
      ensures o[32..] == old(o[32..])
    {
      hide Compress, Holds, LengthField, Digest, Sha256, Zeros;
      PadMessage();
      var field := LengthField(b);
      label padded:
      for i := 0 to 8
        invariant d[..56 + i] == old@padded(d[..56]) + field[..i]
        invariant s[..] == old@padded(s[..]) && o[..] == old(o[..])
      {
        d[56 + i] := field[i];
      }
      assert d[..] == old@padded(d[..56]) + field;
      Transform(s, d[..]);
      StoreDigest(s, o);
    }
  }

  // However a message is cut into update calls, the digest is that of the whole message.
  method HashPieces(pieces: seq<seq<Byte>>) returns (digest: seq<Byte>)
    ensures digest == Sha256(Join(pieces))
  {
    hide Sha256, Holds, Compress;
    var ctx := new S256();
    for i := 0 to |pieces|
      invariant ctx.Valid() && ctx.message == Join(pieces[..i])
      invariant fresh(ctx) && fresh(ctx.d) && fresh(ctx.s)
    {
      assert pieces[..i + 1][..i] == pieces[..i];
      ctx.Update(pieces[i]);
    }
    assert pieces[..|pieces|] == pieces;
    var out := new Byte[32];
    ctx.Finish(out);
    digest := out[..32];
  }

  method HashPair(first: seq<Byte>, second: seq<Byte>, out: array<Byte>)
    requires out.Length >= 32
    modifies out
    ensures out[..32] == Sha256(first + second)
    ensures out[32..] == old(out[32..])
  {
    hide Sha256, Holds;
    var ctx := new S256();
    ctx.Update(first);
    ctx.Update(second);
    assert ctx.message == first + second;
    ctx.Finish(out);
  }

  // hmac_s256
  method HmacS256(key: seq<Byte>, msg: array<Byte>, msgLen: nat, out: array<Byte>)
    requires msgLen <= msg.Length && out.Length >= 32
    modifies out
    ensures out[..32] == Hmac(key, old(msg[..msgLen]))
    ensures out[32..] == old(out[32..])
  {
    hide Sha256;
    var k := key;
    if |key| > 64 {
      var tk := new Byte[32];
      HashPair(key, [], tk);
      assert key + [] == key;
      k := tk[..32];
    }
    var block := k + Zeros(64 - |k|);
    assert block == BlockKey(key);
    var inner := new Byte[32];
    HashPair(XorWith(block, 0x36), msg[..msgLen], inner);
    HashPair(XorWith(block, 0x5c), inner[..32], out);
  }
}
