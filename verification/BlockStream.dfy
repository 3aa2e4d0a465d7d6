/** Hashing by 64-byte blocks, for any compression function: how a message is folded, and what a
    hash value with a partial block stands for while a message streams in. */
module BlockStream {

  type Byte = bv8

  type Block = b: seq<Byte> | |b| == 64 witness seq(64, i => 0)

  // The hash value after the first n blocks of m.
  function Fold<H>(comp: (H, Block) -> H, iv: H, m: seq<Byte>, n: nat): H
    requires 64 * n <= |m|
  {
    if n == 0 then iv else comp(Fold(comp, iv, m, n - 1), m[64 * (n - 1)..64 * n])
  }

  // The hash value depends on the folded blocks only.
  lemma {:induction false} FoldPrefix<H>(comp: (H, Block) -> H, iv: H, m: seq<Byte>, m': seq<Byte>, n: nat)
    requires 64 * n <= |m| <= |m'| && m == m'[..|m|]
    ensures Fold(comp, iv, m, n) == Fold(comp, iv, m', n)
  {
    if n > 0 {
      FoldPrefix(comp, iv, m, m', n - 1);
      assert m[64 * (n - 1)..64 * n] == m'[64 * (n - 1)..64 * n];
    }
  }

  // A hash value and a partial block stand for the message m: the hash value covers n whole
  // blocks and the partial block is the rest.
  ghost predicate Represents<H>(comp: (H, Block) -> H, iv: H, m: seq<Byte>, n: nat, h: H, partial: seq<Byte>) {
    && |partial| < 64
    && |m| == 64 * n + |partial|
    && h == Fold(comp, iv, m, n)
    && partial == m[64 * n..]
  }

  // One more byte extends the partial block.
  lemma RepresentsByte<H>(comp: (H, Block) -> H, iv: H, m: seq<Byte>, n: nat, h: H, partial: seq<Byte>, b: Byte)
    requires Represents(comp, iv, m, n, h, partial) && |partial| < 63
    ensures Represents(comp, iv, m + [b], n, h, partial + [b])
  {
    FoldPrefix(comp, iv, m, m + [b], n);
  }

  // The 64th byte completes a block.
  lemma RepresentsBlock<H>(comp: (H, Block) -> H, iv: H, m: seq<Byte>, n: nat, h: H, partial: seq<Byte>, b: Byte)
    requires Represents(comp, iv, m, n, h, partial) && |partial| == 63
    ensures Represents(comp, iv, m + [b], n + 1, comp(h, partial + [b]), [])
  {
    FoldPrefix(comp, iv, m, m + [b], n);
    assert (m + [b])[64 * n..64 * (n + 1)] == partial + [b];
  }

  // A tail that fills up the partial block closes the message in one compression.
  lemma FinishOne<H>(comp: (H, Block) -> H, iv: H, m: seq<Byte>, n: nat, h: H, partial: seq<Byte>, tail: seq<Byte>)
    requires Represents(comp, iv, m, n, h, partial) && |partial| + |tail| == 64
    ensures |m + tail| == 64 * (n + 1)
    ensures Fold(comp, iv, m + tail, n + 1) == comp(h, partial + tail)
  {
    FoldPrefix(comp, iv, m, m + tail, n);
    assert (m + tail)[64 * n..64 * (n + 1)] == partial + tail;
  }

  // A tail that fills up the partial block and one more closes it in two.
  lemma FinishTwo<H>(comp: (H, Block) -> H, iv: H, m: seq<Byte>, n: nat, h: H, partial: seq<Byte>,
                     tail: seq<Byte>, last: Block)
    requires Represents(comp, iv, m, n, h, partial) && |partial| + |tail| == 64
    ensures |m + tail + last| == 64 * (n + 2)
    ensures Fold(comp, iv, m + tail + last, n + 2) == comp(comp(h, partial + tail), last)
  {
    FinishOne(comp, iv, m, n, h, partial, tail);
    FoldPrefix(comp, iv, m + tail, m + tail + last, n + 1);
    assert (m + tail + last)[64 * (n + 1)..64 * (n + 2)] == last;
  }
}
