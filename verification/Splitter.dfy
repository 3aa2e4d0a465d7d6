/** main.c and parser.c: a file is cut into chunks at line ends, each worker walks the lines of its
    chunk, and newlines are found 32 bytes at a time. The file is fixed while this happens. */
module Splitter {

  const CHUNK_SIZE := 4096

  // ---------- What lines are ----------

  // The first newline from p on, or the end.
  function NextNewline(s: string, p: nat, end: nat): (r: nat)
    requires p <= end <= |s|
    ensures p <= r <= end
    ensures forall k | p <= k < r :: s[k] != '\n'
    ensures r < end ==> s[r] == '\n'
    decreases end - p
  {
    if p < end && s[p] != '\n' then NextNewline(s, p + 1, end) else p
  }

  // The non-empty lines of a text; a newline ends a line and the last one may lack it.
  function Lines(s: string): seq<string>
    decreases |s|
  {
    if s == "" then [] else FirstLine(s) + Lines(AfterLine(s))
  }

  // The first line as a sequence: none when it is empty.
  function FirstLine(s: string): seq<string> {
    var n := NextNewline(s, 0, |s|);
    if n == 0 then [] else [s[..n]]
  }

  function AfterLine(s: string): (r: string)
    ensures s != "" ==> |r| < |s|
  {
    var n := NextNewline(s, 0, |s|);
    if n < |s| then s[n + 1..] else ""
  }

  lemma {:induction false} NextNewlineIs(s: string, p: nat, end: nat, r: nat)
    requires p <= r <= end <= |s| && (forall k | p <= k < r :: s[k] != '\n') && (r < end ==> s[r] == '\n')
    ensures NextNewline(s, p, end) == r
    decreases r - p
  {
    if p < r {
      NextNewlineIs(s, p + 1, end, r);
    }
  }

  predicate EndsLine(s: string) { s == "" || s[|s| - 1] == '\n' }

  lemma LinesFirst(s: string)
    requires s != ""
    ensures Lines(s) == FirstLine(s) + Lines(AfterLine(s))
  {
    hide FirstLine, AfterLine;
  }

  lemma FirstOfConcat(a: string, b: string)
    requires a != "" && EndsLine(a)
    ensures FirstLine(a + b) == FirstLine(a) && AfterLine(a + b) == AfterLine(a) + b && EndsLine(AfterLine(a))
  {
    hide NextNewline;
    var n := NextNewline(a, 0, |a|);
    NextNewlineIs(a + b, 0, |a + b|, n);
    assert (a + b)[..n] == a[..n];
    assert (a + b)[n + 1..] == a[n + 1..] + b;
  }

  // A text cut after a newline has the lines of its two parts.
  lemma {:induction false} LinesConcat(a: string, b: string)
    requires EndsLine(a)
    ensures Lines(a + b) == Lines(a) + Lines(b)
    decreases |a|
  {
    hide Lines, FirstLine, AfterLine;
    if a == "" {
      assert a + b == b;
      NoLines();
      assert [] + Lines(b) == Lines(b);
    } else {
      LinesFirst(a);
      LinesFirst(a + b);
      FirstOfConcat(a, b);
      var first, rest := FirstLine(a), AfterLine(a);
      LinesConcat(rest, b);
      assert first + (Lines(rest) + Lines(b)) == first + Lines(rest) + Lines(b);
    }
  }

  // ---------- Newlines, 32 bytes at a time ----------

  // The comparison mask of one 32-byte block.
  function Mask(s: string, p: nat): (m: seq<bool>)
    requires p + 32 <= |s|
    ensures |m| == 32 && forall k | 0 <= k < 32 :: m[k] == (s[p + k] == '\n')
  {
    seq(32, k requires 0 <= k < 32 => s[p + k] == '\n')
  }

  // The number of clear bits below the lowest set bit.
  function TrailingZeros(m: seq<bool>): (r: nat)
    requires true in m
    ensures r < |m| && m[r] && forall k | 0 <= k < r :: !m[k]
  {
    if m[0] then 0 else 1 + TrailingZeros(m[1..])
  }

  lemma MaskClear(s: string, p: nat, n: nat)
    requires p + 32 <= |s| && n <= 32 && forall k | 0 <= k < n :: !Mask(s, p)[k]
    ensures forall j | p <= j < p + n :: s[j] != '\n'
  {
    forall j | p <= j < p + n
      ensures s[j] != '\n'
    {
      assert !Mask(s, p)[j - p];
    }
  }

  // find_newline_avx2
  method FindNewline(s: string, start: nat, end: nat) returns (p: nat)
    requires start <= end <= |s|
    ensures p == NextNewline(s, start, end)
  {
    p := start;
    while p + 32 <= end
      invariant start <= p <= end && NextNewline(s, start, end) == NextNewline(s, p, end)
      decreases end - p
    {
      var mask := Mask(s, p);
      if true in mask {
        var z := TrailingZeros(mask);
        MaskClear(s, p, z);
        NextNewlineSkip(s, p, p + z, end);
        p := p + z;
        return;
      }
      MaskClear(s, p, 32);
      NextNewlineSkip(s, p, p + 32, end);
      p := p + 32;
    }
    while p < end
      invariant start <= p <= end && NextNewline(s, start, end) == NextNewline(s, p, end)
    {
      if s[p] == '\n' {
        return;
      }
      p := p + 1;
    }
  }

  lemma {:induction false} NextNewlineSkip(s: string, p: nat, q: nat, end: nat)
    requires p <= q <= end <= |s| && forall k | p <= k < q :: s[k] != '\n'
    ensures NextNewline(s, p, end) == NextNewline(s, q, end)
    decreases q - p
  {
    if p < q {
      NextNewlineSkip(s, p + 1, q, end);
    }
  }

  // ---------- A worker walks its chunk ----------

  // The line loop of worker_loop: the lines it hands to the parser.
  method WalkLines(file: string, start: nat, end: nat) returns (lines: seq<string>)
    requires start <= end <= |file|
    ensures lines == Lines(file[start..end])
  {
    hide Lines, NextNewline;
    lines := [];
    var p := start;
    while p < end
      invariant start <= p <= end && Lines(file[start..end]) == lines + Lines(file[p..end])
    {
      var lineStart := p;
      p := FindNewline(file, p, end);
      LineStep(file, lineStart, p, end);
      var line := file[lineStart..p];
      ghost var before := lines;
      if p < end {
        p := p + 1;
      }
      if |line| == 0 {
        continue;
      }
      lines := lines + [line];
      assert before + ([line] + Lines(file[p..end])) == lines + Lines(file[p..end]);
    }
    assert file[p..end] == "";
    NoLines();
    assert lines + [] == lines;
  }

  lemma NoLines()
    ensures Lines("") == []
  {
  }

  // One line taken off the front of a chunk.
  lemma LineStep(file: string, p: nat, n: nat, end: nat)
    requires p < end <= |file| && n == NextNewline(file, p, end)
    ensures var rest := if n < end then n + 1 else n;
      Lines(file[p..end]) == (if n == p then [] else [file[p..n]]) + Lines(file[rest..end])
  {
    hide NextNewline, Lines;
    var s := file[p..end];
    NextNewlineIs(s, 0, |s|, n - p);
    LinesFirst(s);
    assert s[..n - p] == file[p..n];
    if n < end {
      assert s[n - p + 1..] == file[n + 1..end];
    } else {
      assert file[n..end] == "";
      NoLines();
    }
  }

  // ---------- The file is cut into chunks ----------

  datatype Chunk = Chunk(start: nat, end: nat)

  // Consecutive chunks from `from` to `to`, none empty, each ending after a newline or at the end
  // of the file.
  predicate Covers(file: string, chunks: seq<Chunk>, from: nat, to: nat) {
    if chunks == [] then from == to
    else
      var c := chunks[|chunks| - 1];
      && c.start < c.end == to <= |file|
      && (c.end == |file| || file[c.end - 1] == '\n')
      && Covers(file, chunks[..|chunks| - 1], from, c.start)
  }

  // The chunking loop of the main thread.
  method CutIntoChunks(file: string) returns (chunks: seq<Chunk>)
    ensures Covers(file, chunks, 0, |file|)
    ensures forall k | 0 <= k < |chunks| - 1 :: chunks[k].end - chunks[k].start > CHUNK_SIZE
  {
    chunks := [];
    var p, end := 0, |file|;
    while p < end
      invariant p <= end && Covers(file, chunks, 0, p)
      invariant forall k | 0 <= k < |chunks| - 1 :: chunks[k].end - chunks[k].start > CHUNK_SIZE
      invariant |chunks| > 0 && p < end ==> chunks[|chunks| - 1].end - chunks[|chunks| - 1].start > CHUNK_SIZE
    {
      var chunkEnd := p + CHUNK_SIZE;
      if chunkEnd > end {
        chunkEnd := end;
      }
      if chunkEnd < end {
        while chunkEnd < end && file[chunkEnd] != '\n'
          invariant p + CHUNK_SIZE <= chunkEnd <= end
        {
          chunkEnd := chunkEnd + 1;
        }
        if chunkEnd < end {
          chunkEnd := chunkEnd + 1;
        }
      }
      ghost var before := chunks;
      chunks := chunks + [Chunk(p, chunkEnd)];
      assert chunks[..|chunks| - 1] == before;
      p := chunkEnd;
    }
  }

  // The lines of the chunks, chunk by chunk.
  function LinesOf(file: string, chunks: seq<Chunk>, from: nat, to: nat): seq<string>
    requires Covers(file, chunks, from, to)
  {
    if chunks == [] then []
    else
      var c := chunks[|chunks| - 1];
      LinesOf(file, chunks[..|chunks| - 1], from, c.start) + Lines(file[c.start..c.end])
  }

  lemma {:induction false} CoversOrdered(file: string, chunks: seq<Chunk>, from: nat, to: nat)
    requires Covers(file, chunks, from, to) && from <= |file|
    ensures from <= to <= |file|
    ensures to == from || to == |file| || file[to - 1] == '\n'
    decreases |chunks|
  {
    if chunks != [] {
      CoversOrdered(file, chunks[..|chunks| - 1], from, chunks[|chunks| - 1].start);
    }
  }

  // Whatever the chunks, together they have exactly the lines of the file.
  lemma {:induction false} ChunksKeepLines(file: string, chunks: seq<Chunk>, to: nat)
    requires Covers(file, chunks, 0, to)
    ensures to <= |file| && LinesOf(file, chunks, 0, to) == Lines(file[..to])
    decreases |chunks|
  {
    hide Lines;
    CoversOrdered(file, chunks, 0, to);
    if chunks == [] {
      assert file[..to] == "";
      NoLines();
    } else {
      var c, front := chunks[|chunks| - 1], chunks[..|chunks| - 1];
      ChunksKeepLines(file, front, c.start);
      CoversOrdered(file, front, 0, c.start);
      assert EndsLine(file[..c.start]);
      LinesConcat(file[..c.start], file[c.start..to]);
      assert file[..c.start] + file[c.start..to] == file[..to];
    }
  }

  lemma SplitIsLossless(file: string, chunks: seq<Chunk>)
    requires Covers(file, chunks, 0, |file|)
    ensures LinesOf(file, chunks, 0, |file|) == Lines(file)
  {
    ChunksKeepLines(file, chunks, |file|);
    assert file[..|file|] == file;
  }

  // A line, from just after a newline or the start up to a newline or the end.
  predicate IsLine(file: string, a: nat, b: nat) {
    && a < b <= |file| && (a == 0 || file[a - 1] == '\n') && (b == |file| || file[b] == '\n')
    && (forall k | a <= k < b :: file[k] != '\n')
  }

  // Every line lies in one chunk and in no other.
  lemma {:induction false} LineInOneChunk(file: string, chunks: seq<Chunk>, to: nat, a: nat, b: nat) returns (k: nat)
    requires Covers(file, chunks, 0, to) && IsLine(file, a, b) && a < to
    ensures k < |chunks| && chunks[k].start <= a && b <= chunks[k].end
    ensures forall j | 0 <= j < |chunks| && j != k :: chunks[j].end <= a || b <= chunks[j].start
    decreases |chunks|
  {
    CoversOrdered(file, chunks, 0, to);
    var n := |chunks| - 1;
    var c, front := chunks[n], chunks[..n];
    CoversOrdered(file, front, 0, c.start);
    if a < c.start {
      k := LineInOneChunk(file, front, c.start, a, b);
      assert forall j | 0 <= j < n :: front[j] == chunks[j];
      assert front[k].end <= c.start by { ChunkBelow(file, front, c.start, k); }
    } else {
      k := n;
      forall j | 0 <= j < n
        ensures chunks[j].end <= a
      {
        ChunkBelow(file, front, c.start, j);
      }
      assert c.end == |file| || file[c.end - 1] == '\n';
    }
  }

  lemma {:induction false} ChunkBelow(file: string, chunks: seq<Chunk>, to: nat, j: nat)
    requires Covers(file, chunks, 0, to) && j < |chunks|
    ensures chunks[j].end <= to
    decreases |chunks|
  {
    var n := |chunks| - 1;
    if j < n {
      ChunkBelow(file, chunks[..n], chunks[n].start, j);
    }
  }
}
