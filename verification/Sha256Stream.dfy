/** crypto_utils.c: the streaming SHA-256 context, proved against the published definitions in
    Sha256Spec. The hash value is an array that every block updates in place, the partial block is a
    64-byte buffer with a cursor. */
module Sha256Stream {
  import opened BlockStream
  import opened Sha256Spec

  // The first half of sha256_transform: expands the block into the 64 schedule words.
  method Expand(block: Block) returns (m: array<Word>)
    ensures fresh(m) && m.Length == 64
    ensures forall t | 0 <= t < 64 :: m[t] == Schedule(block, t)
  {
    m := new Word[64];
    var i := 0;
    while i < 16
      invariant 0 <= i <= 16
      invariant forall t | 0 <= t < i :: m[t] == Schedule(block, t)
    {
      m[i] := WordOf(block[4 * i], block[4 * i + 1], block[4 * i + 2], block[4 * i + 3]);
      i := i + 1;
    }
    while i < 64
      invariant 16 <= i <= 64
      invariant forall t | 0 <= t < i :: m[t] == Schedule(block, t)
    {
      var w := ScheduleNext(m[i - 2], m[i - 7], m[i - 15], m[i - 16]);
      assert w == Schedule(block, i);
      m[i] := w;
      i := i + 1;
    }
  }

  // The 64 rounds of sha256_transform on the local variables a to h.
  method RunRounds(m: seq<Word>, ghost block: Block, start: Working) returns (v: Working)
    requires |m| == 64
    requires forall t | 0 <= t < 64 :: m[t] == Schedule(block, t)
    ensures v == Rounds(start, block, |block|)
  {
    var Working(a, b, c, d, e, f, g, h) := start;
    for i := 0 to 64
      invariant Working(a, b, c, d, e, f, g, h) == Rounds(start, block, i)
    {
      ghost var before := Working(a, b, c, d, e, f, g, h);
      var t1 := Temp1(e, f, g, h, K[i], m[i]);
      var t2 := Temp2(a, b, c);
      h := g;
      g := f;
      f := e;
      e := Plus(d, t1);
      d := c;
      c := b;
      b := a;
      a := Plus(t1, t2);
      assert Working(a, b, c, d, e, f, g, h) == Round(before, K[i], m[i]);
    }
    v := Working(a, b, c, d, e, f, g, h);
  }

  // The closing additions of sha256_transform.
  method AddInto(state: array<Word>, w: seq<Word>)
    requires state.Length == |w| == 8
    modifies state
    ensures state[..] == AddWords(old(state[..]), w)
  {
    for i := 0 to 8
      invariant forall j | 0 <= j < i :: state[j] == Plus(old(state[j]), w[j])
      invariant forall j | i <= j < 8 :: state[j] == old(state[j])
    {
      state[i] := Plus(state[i], w[i]);
    }
  }

  // sha256_transform: expands the block, runs the rounds and adds the result into the state.
  method Transform(state: array<Word>, block: Block)
    requires state.Length == 8
    modifies state
    ensures state[..] == Compress(old(state[..]), block)
  {
    var m := Expand(block);
    var v := RunRounds(m[..], block,
                       Working(state[0], state[1], state[2], state[3], state[4], state[5], state[6], state[7]));
    AddInto(state, Words(v));
  }

  // The four bytes of each state word, as stored by the closing loop of sha256_final.
  method StoreDigest(state: array<Word>, hash: array<Byte>)
    requires state.Length == 8 && hash.Length >= 32
    modifies hash
    ensures hash[..32] == Digest(state[..])
    ensures hash[32..] == old(hash[32..])
  {
    hide BytesOf;
    ghost var h := state[..];
    for j := 0 to 8
      invariant state[..] == h
      invariant hash[..4 * j] == DigestPrefix(h, j)
      invariant hash[32..] == old(hash[32..])
    {
      StoreWord(hash, 4 * j, BytesOf(state[j]));
    }
  }

  method StoreWord(hash: array<Byte>, i: nat, bytes: seq<Byte>)
    requires |bytes| == 4 && i + 4 <= 32 <= hash.Length
    modifies hash
    ensures hash[..i + 4] == old(hash[..i]) + bytes && hash[32..] == old(hash[32..])
  {
    hash[i] := bytes[0];
    hash[i + 1] := bytes[1];
    hash[i + 2] := bytes[2];
    hash[i + 3] := bytes[3];
  }

  // memset(p, 0, n)
  method ZeroPrefix(a: array<Byte>, n: nat)
    requires n <= a.Length
    modifies a
    ensures a[..n] == Zeros(n) && a[n..] == old(a[n..])
  {
    for i := 0 to n
      invariant a[..i] == Zeros(i) && a[n..] == old(a[n..])
    {
      a[i] := 0;
    }
  }

  // Sha256Ctx and its three operations. The ghost fields are the message so far and the number
  // of its blocks that are already in the hash value.
  class Sha256Ctx {
    const data: array<Byte>
    const state: array<Word>
    var datalen: nat
    var bitlen: nat
    ghost var message: seq<Byte>
    ghost var blocks: nat

    ghost predicate Valid()
      reads this, data, state
    {
      && data.Length == 64 && state.Length == 8 && datalen < 64
      && Holds(message, blocks, state[..], data[..datalen])
      && bitlen == 512 * blocks % TWO64
    }

    // sha256_init
    constructor ()
      ensures Valid() && message == []
      ensures fresh(data) && fresh(state)
    {
      data := new Byte[64];
      state := new Word[8](i requires 0 <= i < 8 => INITIAL[i]);
      datalen := 0;
      bitlen := 0;
      message := [];
      blocks := 0;
      new;
      assert state[..] == INITIAL;
    }

    // The body of the loop of sha256_update.
    method Absorb(b: Byte)
      requires Valid()
      modifies this, data, state
      ensures Valid() && message == old(message) + [b]
    {
      hide Compress, Holds;
      ghost var h, partial := state[..], data[..datalen];
      data[datalen] := b;
      datalen := datalen + 1;
      assert data[..datalen] == partial + [b];
      if datalen == 64 {
        HoldsBlock(message, blocks, h, partial, b);
        assert data[..] == partial + [b];
        Transform(state, data[..]);
        bitlen := (bitlen + 512) % TWO64;
        datalen := 0;
        blocks := blocks + 1;
        assert data[..datalen] == [];
      } else {
        HoldsByte(message, blocks, h, partial, b);
      }
      message := message + [b];
    }

    // sha256_update
    method Update(input: seq<Byte>)
      requires Valid()
      modifies this, data, state
      ensures Valid() && message == old(message) + input
    {
      hide Compress, Holds;
      for i := 0 to |input|
        invariant Valid() && message == old(message) + input[..i]
      {
        Absorb(input[i]);
      }
    }

    // The padding of sha256_final: the marker byte and zero bytes up to a limit.
    method FillFrom(limit: nat)
      requires data.Length == 64 && datalen < limit <= 64
      modifies data
      ensures data[..limit] == old(data[..datalen]) + [0x80] + Zeros(limit - datalen - 1)
    {
      var i := datalen;
      data[i] := 0x80;
      i := i + 1;
      while i < limit
        invariant datalen < i <= limit
        invariant data[..i] == old(data[..datalen]) + [0x80] + Zeros(i - datalen - 1)
      {
        data[i] := 0;
        i := i + 1;
      }
    }

    // The length stores of sha256_final.
    method StoreLength()
      requires data.Length == 64
      modifies data
      ensures data[..] == old(data[..56]) + LengthField(bitlen)
    {
      hide LengthField;
      var field := LengthField(bitlen);
      for i := 0 to 8
        invariant data[..56 + i] == old(data[..56]) + field[..i]
      {
        data[56 + i] := field[i];
      }
    }

    // The first part of sha256_final: pads, compressing a block early when the length does not
    // fit. What is left to compress is the first 56 bytes of the buffer and the length.
    method PadMessage()
      requires Valid()
      modifies data, state
      ensures Sha256(message) == Digest(Compress(state[..], data[..56] + LengthField(8 * |message| % TWO64)))
    {
      hide Compress, Holds, LengthField, Digest, Sha256, Zeros;
      ghost var h, partial := state[..], data[..datalen];
      if datalen < 56 {
        HoldsFinishOne(message, blocks, h, partial);
        FillFrom(56);
        assert state[..] == h;
        assert data[..56] + LengthField(8 * |message| % TWO64)
            == partial + ([0x80] + Zeros(55 - |partial|) + LengthField(8 * |message| % TWO64));
      } else {
        HoldsFinishTwo(message, blocks, h, partial);
        FillFrom(64);
        assert data[..] == data[..64];
        Transform(state, data[..]);
        ZeroPrefix(data, 56);
      }
    }

    // sha256_final
    method Final(hash: array<Byte>)
      requires Valid() && hash.Length >= 32 && hash != data
      modifies this, data, state, hash
      ensures hash[..32] == Sha256(old(message))
      ensures hash[32..] == old(hash[32..])
    {
      hide Compress, Holds, LengthField, Digest, Sha256, Zeros;
      HoldsBits(message, blocks, state[..], data[..datalen]);
      PadMessage();
      bitlen := (bitlen + datalen * 8) % TWO64;
      StoreLength();
      Transform(state, data[..]);
      StoreDigest(state, hash);
    }
  }

  // However a message is cut into update calls, the digest is that of the whole message.
  method HashPieces(pieces: seq<seq<Byte>>) returns (digest: seq<Byte>)
    ensures digest == Sha256(Join(pieces))
  {
    hide Sha256, Holds, Compress;
    var ctx := new Sha256Ctx();
    for i := 0 to |pieces|
      invariant ctx.Valid() && ctx.message == Join(pieces[..i])
      invariant fresh(ctx) && fresh(ctx.data) && fresh(ctx.state)
    {
      assert pieces[..i + 1][..i] == pieces[..i];
      ctx.Update(pieces[i]);
    }
    assert pieces[..|pieces|] == pieces;
    var out := new Byte[32];
    ctx.Final(out);
    digest := out[..32];
  }
}
