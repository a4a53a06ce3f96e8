/**
 * The sliding-window text chunker `chunkText` of web/src/lib/embeddings.ts.
 *
 * The loop as written never exits once a window has reached the end of a text
 * longer than `maxLen` while `overlap > 0`: the next start is `length - overlap`,
 * still inside the text, so the same last window is pushed again and again.  It is
 * modelled here with an iteration budget (`fuel`) and a flag telling whether the
 * loop left on its own.  `Chunks` / `ChunkText` is the corrected chunker, which
 * stops once a window reaches the end and always advances; the ingestion routes
 * of this model use it.
 */
module Chunker {

  const DefaultMaxLen: nat := 2000
  const DefaultOverlap: nat := 200

  function Min(a: int, b: int): int { if a <= b then a else b }

  /** `Math.min(text.length, i + maxLen)`: where the window starting at `i` ends. */
  function WindowEnd(n: nat, maxLen: nat, i: nat): nat { Min(n, i + maxLen) }

  /** `i = end - overlap; if (i < 0) i = 0;`: where the next window starts. */
  function NextStart(n: nat, maxLen: nat, overlap: nat, i: nat): nat {
    var s := WindowEnd(n, maxLen, i) - overlap;
    if s < 0 then 0 else s
  }

  /** A chunk is a window of the text: the slice from some start to `WindowEnd` of it. */
  ghost predicate IsWindow(text: string, maxLen: nat, c: string) {
    exists j | 0 <= j <= |text| :: j <= WindowEnd(|text|, maxLen, j) && c == text[j..WindowEnd(|text|, maxLen, j)]
  }

  /** Every chunk of `cs` is a window of `text` no longer than `maxLen`. */
  ghost predicate AllWindows(text: string, maxLen: nat, cs: seq<string>) {
    forall c | c in cs :: IsWindow(text, maxLen, c) && |c| <= maxLen
  }

  /** Chunk `k` ends with the same `overlap` characters that chunk `k + 1` starts with. */
  predicate SharesWithNext(cs: seq<string>, overlap: nat, k: nat)
    requires k + 1 < |cs|
  {
    overlap <= |cs[k]| && overlap <= |cs[k + 1]| && cs[k][|cs[k]| - overlap..] == cs[k + 1][..overlap]
  }

  /** What a run of the loop produced: the chunks pushed, and whether the loop exited by itself. */
  datatype LoopResult = LoopResult(chunks: seq<string>, halted: bool)

  function Prepend(c: string, r: LoopResult): LoopResult {
    LoopResult([c] + r.chunks, r.halted)
  }

  /**
   * The `while` loop of `chunkText` entered with index `i`, allowed `fuel` more
   * iterations; `halted == false` means the budget ran out before the loop exited.
   */
  function Run(text: string, maxLen: nat, overlap: nat, i: nat, fuel: nat): LoopResult
    decreases fuel
  {
    if i >= |text| then LoopResult([], true)
    else if fuel == 0 then LoopResult([], false)
    else
      var chunk := text[i..WindowEnd(|text|, maxLen, i)];
      var next := NextStart(|text|, maxLen, overlap, i);
      if next >= |text| then LoopResult([chunk], true)
      else Prepend(chunk, Run(text, maxLen, overlap, next, fuel - 1))
  }

  /** `chunkText(text, maxLen, overlap)` as written, cut off after `fuel` iterations. */
  function ChunkTextAsWritten(text: string, maxLen: nat, overlap: nat, fuel: nat): LoopResult {
    if |text| <= maxLen then LoopResult([text], true) else Run(text, maxLen, overlap, 0, fuel)
  }

  /** The source's loop, statement for statement, with an iteration budget. */
  method ChunkTextLoop(text: string, maxLen: nat, overlap: nat, fuel: nat) returns (chunks: seq<string>, halted: bool)
    ensures LoopResult(chunks, halted) == ChunkTextAsWritten(text, maxLen, overlap, fuel)
    ensures |text| <= maxLen ==> chunks == [text]
    ensures |text| > maxLen && fuel >= 1 ==> chunks[0] == text[..maxLen]
  {
    if |text| <= maxLen {
      return [text], true;
    }
    chunks := [];
    var i: nat := 0;
    var steps: nat := 0;
    var exited := false;
    while i < |text| && steps < fuel
      invariant steps <= fuel
      invariant !exited
      invariant Run(text, maxLen, overlap, 0, fuel) == LoopResult(chunks + Run(text, maxLen, overlap, i, fuel - steps).chunks, Run(text, maxLen, overlap, i, fuel - steps).halted)
      decreases fuel - steps
    {
      var end := Min(|text|, i + maxLen);
      ghost var before, rem := chunks, fuel - steps;
      chunks := chunks + [text[i..end]];
      var next := end - overlap;
      if next < 0 { next := 0; }
      steps := steps + 1;
      if next >= |text| {
        RunExit(text, maxLen, overlap, i, rem);
        exited := true;
        break;
      }
      RunHead(text, maxLen, overlap, i, rem);
      assert before + ([text[i..end]] + Run(text, maxLen, overlap, next, rem - 1).chunks)
        == chunks + Run(text, maxLen, overlap, next, rem - 1).chunks;
      i := next;
    }
    halted := exited || i >= |text|;
    if fuel >= 1 {
      AsWrittenFirstChunk(text, maxLen, overlap, fuel);
    }
  }

  /** With a text longer than `maxLen` and at least one iteration, the first chunk is the first `maxLen` characters. */
  lemma AsWrittenFirstChunk(text: string, maxLen: nat, overlap: nat, fuel: nat)
    requires |text| > maxLen && fuel >= 1
    ensures |ChunkTextAsWritten(text, maxLen, overlap, fuel).chunks| >= 1
    ensures ChunkTextAsWritten(text, maxLen, overlap, fuel).chunks[0] == text[..maxLen]
  {
    if NextStart(|text|, maxLen, overlap, 0) < |text| {
      RunHead(text, maxLen, overlap, 0, fuel);
    } else {
      RunExit(text, maxLen, overlap, 0, fuel);
    }
  }

  /** An iteration that leaves a start inside the text pushes its window and goes on from there. */
  lemma RunHead(text: string, maxLen: nat, overlap: nat, i: nat, fuel: nat)
    requires i < |text| && fuel > 0 && NextStart(|text|, maxLen, overlap, i) < |text|
    ensures Run(text, maxLen, overlap, i, fuel)
      == Prepend(text[i..WindowEnd(|text|, maxLen, i)], Run(text, maxLen, overlap, NextStart(|text|, maxLen, overlap, i), fuel - 1))
  {
  }

  /** An iteration whose next start is past the text pushes its window and exits. */
  lemma RunExit(text: string, maxLen: nat, overlap: nat, i: nat, fuel: nat)
    requires i < |text| && fuel > 0 && NextStart(|text|, maxLen, overlap, i) >= |text|
    ensures Run(text, maxLen, overlap, i, fuel) == LoopResult([text[i..WindowEnd(|text|, maxLen, i)]], true)
  {
  }

  /** Every chunk the loop pushes is a window of the text, so none is longer than `maxLen`. */
  lemma {:induction false} RunChunksAreWindows(text: string, maxLen: nat, overlap: nat, i: nat, fuel: nat)
    ensures forall k :: 0 <= k < |Run(text, maxLen, overlap, i, fuel).chunks| ==>
      IsWindow(text, maxLen, Run(text, maxLen, overlap, i, fuel).chunks[k]) &&
      |Run(text, maxLen, overlap, i, fuel).chunks[k]| <= maxLen
    decreases fuel
  {
    if i < |text| && fuel > 0 {
      var e := WindowEnd(|text|, maxLen, i);
      assert IsWindow(text, maxLen, text[i..e]);
      if NextStart(|text|, maxLen, overlap, i) < |text| {
        RunChunksAreWindows(text, maxLen, overlap, NextStart(|text|, maxLen, overlap, i), fuel - 1);
      }
    }
  }

  /** Whatever the parameters and the budget, every chunk is a window no longer than `maxLen`. */
  lemma AsWrittenChunksAreWindows(text: string, maxLen: nat, overlap: nat, fuel: nat)
    ensures forall c | c in ChunkTextAsWritten(text, maxLen, overlap, fuel).chunks ::
      IsWindow(text, maxLen, c) && |c| <= maxLen
  {
    if |text| <= maxLen {
      assert text == text[0..WindowEnd(|text|, maxLen, 0)];
    } else {
      RunChunksAreWindows(text, maxLen, overlap, 0, fuel);
    }
  }

  /**
   * With `0 < overlap` and a text longer than `maxLen`, every start stays below the
   * text's length, so the `break` never fires: the loop uses up any budget, pushing
   * one chunk per iteration, and never exits.
   */
  lemma {:induction false} RunNeverHalts(text: string, maxLen: nat, overlap: nat, i: nat, fuel: nat)
    requires 0 < overlap && i < |text|
    ensures !Run(text, maxLen, overlap, i, fuel).halted
    ensures |Run(text, maxLen, overlap, i, fuel).chunks| == fuel
    decreases fuel
  {
    if fuel > 0 {
      assert NextStart(|text|, maxLen, overlap, i) < |text|;
      RunNeverHalts(text, maxLen, overlap, NextStart(|text|, maxLen, overlap, i), fuel - 1);
    }
  }

  lemma PositiveOverlapNeverHalts(text: string, maxLen: nat, overlap: nat, fuel: nat)
    requires 0 < overlap && |text| > maxLen
    ensures !ChunkTextAsWritten(text, maxLen, overlap, fuel).halted
    ensures |ChunkTextAsWritten(text, maxLen, overlap, fuel).chunks| == fuel
  {
    RunNeverHalts(text, maxLen, overlap, 0, fuel);
  }

  /** `fuel` copies of one chunk. */
  function Repeat(c: string, fuel: nat): (r: seq<string>)
    ensures |r| == fuel && forall k :: 0 <= k < fuel ==> r[k] == c
  {
    seq(fuel, _ => c)
  }

  /**
   * The fixpoint: from the window that starts `overlap` characters before the end
   * (where every window that reaches the end sends the loop), the loop pushes
   * that same final slice on every iteration.
   */
  lemma {:induction false} StuckOnFinalWindow(text: string, maxLen: nat, overlap: nat, fuel: nat)
    requires 0 < overlap <= maxLen && overlap <= |text|
    ensures NextStart(|text|, maxLen, overlap, |text| - overlap) == |text| - overlap
    ensures Run(text, maxLen, overlap, |text| - overlap, fuel) == LoopResult(Repeat(text[|text| - overlap..], fuel), false)
    decreases fuel
  {
    var n := |text|;
    assert WindowEnd(n, maxLen, n - overlap) == n;
    if fuel > 0 {
      StuckOnFinalWindow(text, maxLen, overlap, fuel - 1);
      assert text[n - overlap..WindowEnd(n, maxLen, n - overlap)] == text[n - overlap..];
      assert Repeat(text[|text| - overlap..], fuel) == [text[|text| - overlap..]] + Repeat(text[|text| - overlap..], fuel - 1);
    }
  }

  /** A window that reaches the end of the text sends the loop to that fixpoint. */
  lemma WindowAtEndGoesToFixpoint(n: nat, maxLen: nat, overlap: nat, i: nat)
    requires 0 < overlap <= maxLen && overlap <= n && i < n && WindowEnd(n, maxLen, i) == n
    ensures NextStart(n, maxLen, overlap, i) == n - overlap < n
  {
  }

  /**
   * With `overlap >= maxLen` the start after the first window clamps back to 0: the
   * loop never moves and pushes the first `maxLen` characters on every iteration.
   */
  lemma {:induction false} LargeOverlapRepeatsFirstWindow(text: string, maxLen: nat, overlap: nat, fuel: nat)
    requires maxLen <= overlap && maxLen < |text|
    ensures NextStart(|text|, maxLen, overlap, 0) == 0
    ensures ChunkTextAsWritten(text, maxLen, overlap, fuel) == LoopResult(Repeat(text[..maxLen], fuel), false)
    decreases fuel
  {
    if fuel > 0 {
      LargeOverlapRepeatsFirstWindow(text, maxLen, overlap, fuel - 1);
      assert Repeat(text[..maxLen], fuel) == [text[..maxLen]] + Repeat(text[..maxLen], fuel - 1);
    }
  }

  /**
   * Consecutive chunks share exactly `overlap` characters: the last `overlap`
   * characters of a chunk are the first `overlap` characters of the next one
   * (for `overlap <= maxLen` and a text longer than `maxLen`, where no clamping occurs).
   */
  lemma {:induction false} RunConsecutiveOverlap(text: string, maxLen: nat, overlap: nat, i: nat, fuel: nat, k: nat)
    requires overlap <= maxLen < |text| && i + overlap <= |text|
    requires k + 1 < |Run(text, maxLen, overlap, i, fuel).chunks|
    ensures SharesWithNext(Run(text, maxLen, overlap, i, fuel).chunks, overlap, k)
    decreases fuel
  {
    var n := |text|;
    var e := WindowEnd(n, maxLen, i);
    var next := NextStart(n, maxLen, overlap, i);
    assert next == e - overlap;
    var rest := Run(text, maxLen, overlap, next, fuel - 1);
    assert Run(text, maxLen, overlap, i, fuel).chunks == [text[i..e]] + rest.chunks;
    if k == 0 {
      assert rest.chunks[0] == text[next..WindowEnd(n, maxLen, next)];
      assert text[i..e][e - i - overlap..] == text[next..e];
      assert text[next..WindowEnd(n, maxLen, next)][..overlap] == text[next..e];
    } else {
      RunConsecutiveOverlap(text, maxLen, overlap, next, fuel - 1, k - 1);
    }
  }

  lemma AsWrittenConsecutiveOverlap(text: string, maxLen: nat, overlap: nat, fuel: nat, k: nat)
    requires overlap <= maxLen < |text|
    requires k + 1 < |ChunkTextAsWritten(text, maxLen, overlap, fuel).chunks|
    ensures SharesWithNext(ChunkTextAsWritten(text, maxLen, overlap, fuel).chunks, overlap, k)
  {
    RunConsecutiveOverlap(text, maxLen, overlap, 0, fuel, k);
  }

  // ---------------------------------------------------------------------------
  // The corrected chunker.

  /**
   * The corrected loop from index `i`: push the window; stop when it reaches the end
   * of the text; otherwise continue at `end - overlap` (clamped at 0), but always at
   * least one character further on.
   */
  function ChunksFrom(text: string, maxLen: nat, overlap: nat, i: nat): seq<string>
    requires 1 <= maxLen && i < |text|
    decreases |text| - i
  {
    var e := WindowEnd(|text|, maxLen, i);
    if e == |text| then [text[i..]]
    else
      var next := NextStart(|text|, maxLen, overlap, i);
      [text[i..e]] + ChunksFrom(text, maxLen, overlap, if next > i then next else i + 1)
  }

  /** The corrected `chunkText`. */
  function Chunks(text: string, maxLen: nat, overlap: nat): seq<string>
    requires 1 <= maxLen
  {
    if |text| <= maxLen then [text] else ChunksFrom(text, maxLen, overlap, 0)
  }

  /** The corrected loop, in the source's imperative form. */
  method ChunkText(text: string, maxLen: nat, overlap: nat) returns (chunks: seq<string>)
    requires 1 <= maxLen
    ensures chunks == Chunks(text, maxLen, overlap)
    ensures chunks != []
  {
    if |text| <= maxLen {
      return [text];
    }
    chunks := [];
    var i: nat := 0;
    while true
      invariant i < |text|
      invariant Chunks(text, maxLen, overlap) == chunks + ChunksFrom(text, maxLen, overlap, i)
      decreases |text| - i
    {
      var end := Min(|text|, i + maxLen);
      if end == |text| {
        ChunksFromLast(text, maxLen, overlap, i);
        chunks := chunks + [text[i..end]];
        return;
      }
      var next := end - overlap;
      if next < 0 { next := 0; }
      if next <= i { next := i + 1; }
      var chunks' := chunks + [text[i..end]];
      ChunksFromStep(text, maxLen, overlap, i, next, chunks, chunks');
      chunks, i := chunks', next;
    }
  }

  /** The last window: `ChunksFrom` is that one chunk. */
  lemma ChunksFromLast(text: string, maxLen: nat, overlap: nat, i: nat)
    requires 1 <= maxLen && i < |text| && WindowEnd(|text|, maxLen, i) == |text|
    ensures ChunksFrom(text, maxLen, overlap, i) == [text[i..WindowEnd(|text|, maxLen, i)]]
  {
    assert text[i..WindowEnd(|text|, maxLen, i)] == text[i..];
  }

  /** A window short of the end: one chunk, then the rest from the advanced start. */
  lemma ChunksFromStep(text: string, maxLen: nat, overlap: nat, i: nat, next: nat, chunks: seq<string>, chunks': seq<string>)
    requires 1 <= maxLen && i < |text| && WindowEnd(|text|, maxLen, i) < |text|
    requires next == (if NextStart(|text|, maxLen, overlap, i) > i then NextStart(|text|, maxLen, overlap, i) else i + 1)
    requires chunks' == chunks + [text[i..WindowEnd(|text|, maxLen, i)]]
    ensures next < |text|
    ensures chunks + ChunksFrom(text, maxLen, overlap, i) == chunks' + ChunksFrom(text, maxLen, overlap, next)
  {
  }

  /** Chunks with the overlapping tail of every chunk but the last dropped, concatenated. */
  function Stitch(cs: seq<string>, overlap: nat): string {
    if cs == [] then ""
    else if |cs| == 1 then cs[0]
    else cs[0][..if overlap <= |cs[0]| then |cs[0]| - overlap else 0] + Stitch(cs[1..], overlap)
  }

  /** Plain concatenation. */
  function Concat(cs: seq<string>): string {
    if cs == [] then "" else cs[0] + Concat(cs[1..])
  }

  /**
   * The corrected chunks tile the text: dropping the `overlap` characters each
   * chunk shares with the next and concatenating gives back the text exactly.
   */
  lemma {:induction false} ChunksFromTile(text: string, maxLen: nat, overlap: nat, i: nat)
    requires overlap < maxLen && i < |text|
    ensures Stitch(ChunksFrom(text, maxLen, overlap, i), overlap) == text[i..]
    decreases |text| - i
  {
    var e := WindowEnd(|text|, maxLen, i);
    if e < |text| {
      var next := NextStart(|text|, maxLen, overlap, i);
      assert next == i + maxLen - overlap > i;
      var rest := ChunksFrom(text, maxLen, overlap, next);
      ChunksFromTile(text, maxLen, overlap, next);
      var cs := [text[i..e]] + rest;
      assert ChunksFrom(text, maxLen, overlap, i) == cs;
      assert cs[1..] == rest;
      assert text[i..e][..|text[i..e]| - overlap] == text[i..next];
      assert Stitch(cs, overlap) == text[i..next] + Stitch(rest, overlap);
      assert text[i..next] + text[next..] == text[i..];
    } else {
      assert text[i..] == text[i..e];
    }
  }

  /** Every corrected chunk is a window of the text, so none is longer than `maxLen`. */
  lemma {:induction false} ChunksFromWindows(text: string, maxLen: nat, overlap: nat, i: nat)
    requires 1 <= maxLen && i < |text|
    ensures AllWindows(text, maxLen, ChunksFrom(text, maxLen, overlap, i))
    decreases |text| - i
  {
    var e := WindowEnd(|text|, maxLen, i);
    assert IsWindow(text, maxLen, text[i..e]);
    if e < |text| {
      var next := NextStart(|text|, maxLen, overlap, i);
      ChunksFromWindows(text, maxLen, overlap, if next > i then next else i + 1);
    } else {
      assert text[i..] == text[i..e];
    }
  }

  /** Consecutive corrected chunks share exactly `overlap` characters. */
  lemma {:induction false} ChunksFromOverlap(text: string, maxLen: nat, overlap: nat, i: nat, k: nat)
    requires overlap < maxLen && i < |text| && i + overlap <= |text|
    requires k + 1 < |ChunksFrom(text, maxLen, overlap, i)|
    ensures SharesWithNext(ChunksFrom(text, maxLen, overlap, i), overlap, k)
    decreases |text| - i
  {
    var e := WindowEnd(|text|, maxLen, i);
    var next := NextStart(|text|, maxLen, overlap, i);
    assert e < |text| && next == e - overlap > i;
    var rest := ChunksFrom(text, maxLen, overlap, next);
    if k == 0 {
      FirstOverlap(text, maxLen, overlap, i, e, next);
    } else {
      ChunksFromOverlap(text, maxLen, overlap, next, k - 1);
    }
  }

  /** The first two corrected chunks share `overlap` characters. */
  lemma FirstOverlap(text: string, maxLen: nat, overlap: nat, i: nat, e: nat, next: nat)
    requires overlap < maxLen && i < |text|
    requires e == WindowEnd(|text|, maxLen, i) < |text|
    requires next == NextStart(|text|, maxLen, overlap, i) == e - overlap > i
    ensures 1 < |ChunksFrom(text, maxLen, overlap, i)|
    ensures SharesWithNext(ChunksFrom(text, maxLen, overlap, i), overlap, 0)
  {
    var rest := ChunksFrom(text, maxLen, overlap, next);
    assert ChunksFrom(text, maxLen, overlap, i) == [text[i..e]] + rest;
    var e' := WindowEnd(|text|, maxLen, next);
    assert rest[0] == text[next..e'];
    assert text[i..e][e - i - overlap..] == text[next..e];
    assert text[next..e'][..overlap] == text[next..e];
  }

  /**
   * What the corrected chunker promises, for `overlap < maxLen`: a non-empty list,
   * `[text]` for a short text, otherwise first chunk `text[..maxLen]`, every chunk a
   * window, neighbours sharing `overlap` characters, and the text tiled exactly.
   */
  lemma ChunksCorrect(text: string, maxLen: nat, overlap: nat)
    requires overlap < maxLen
    ensures var cs := Chunks(text, maxLen, overlap);
      cs != [] &&
      (|text| <= maxLen ==> cs == [text]) &&
      (|text| > maxLen ==> cs[0] == text[..maxLen]) &&
      AllWindows(text, maxLen, cs) &&
      (forall k | 0 <= k < |cs| - 1 :: SharesWithNext(cs, overlap, k)) &&
      Stitch(cs, overlap) == text
  {
    if |text| <= maxLen {
      assert text == text[0..WindowEnd(|text|, maxLen, 0)];
    } else {
      ChunksFromTile(text, maxLen, overlap, 0);
      ChunksFromWindows(text, maxLen, overlap, 0);
      forall k | 0 <= k < |Chunks(text, maxLen, overlap)| - 1
        ensures SharesWithNext(Chunks(text, maxLen, overlap), overlap, k)
      {
        ChunksFromOverlap(text, maxLen, overlap, 0, k);
      }
    }
  }

  /** With no overlap, the corrected loop is the original loop, which then exits. */
  lemma {:induction false} ZeroOverlapRunAgrees(text: string, maxLen: nat, i: nat, fuel: nat)
    requires 1 <= maxLen && i < |text| && |text| - i <= fuel
    ensures Run(text, maxLen, 0, i, fuel) == LoopResult(ChunksFrom(text, maxLen, 0, i), true)
    decreases |text| - i
  {
    var e := WindowEnd(|text|, maxLen, i);
    assert NextStart(|text|, maxLen, 0, i) == e;
    if e < |text| {
      ZeroOverlapRunAgrees(text, maxLen, e, fuel - 1);
    } else {
      assert text[i..e] == text[i..];
    }
  }

  lemma {:induction false} StitchZeroIsConcat(cs: seq<string>)
    ensures Stitch(cs, 0) == Concat(cs)
  {
    if |cs| > 1 {
      StitchZeroIsConcat(cs[1..]);
      assert cs[0][..|cs[0]|] == cs[0];
    } else if |cs| == 1 {
      assert Concat(cs[1..]) == "";
    }
  }

  /**
   * With `overlap = 0` and `maxLen >= 1`, the original loop exits within `|text|`
   * iterations, and its chunks concatenate back to the text with no gap.
   */
  lemma ZeroOverlapTerminatesAndTiles(text: string, maxLen: nat, fuel: nat)
    requires 1 <= maxLen && |text| <= fuel
    ensures ChunkTextAsWritten(text, maxLen, 0, fuel) == LoopResult(Chunks(text, maxLen, 0), true)
    ensures Concat(ChunkTextAsWritten(text, maxLen, 0, fuel).chunks) == text
  {
    if |text| > maxLen {
      ZeroOverlapRunAgrees(text, maxLen, 0, fuel);
    }
    ChunksCorrect(text, maxLen, 0);
    StitchZeroIsConcat(Chunks(text, maxLen, 0));
  }

  /** Windows needed to cover `x` characters at a stride of `d`: `ceil(x / d)` for `x >= 1`. */
  function CeilDiv(x: nat, d: nat): nat
    requires 1 <= d
    decreases x
  {
    if x <= d then 1 else 1 + CeilDiv(x - d, d)
  }

  /** The corrected chunker yields `ceil((len - overlap) / (maxLen - overlap))` chunks for a long text. */
  lemma {:induction false} ChunksFromCount(text: string, maxLen: nat, overlap: nat, i: nat)
    requires overlap < maxLen && i + overlap < |text|
    ensures |ChunksFrom(text, maxLen, overlap, i)| == CeilDiv(|text| - i - overlap, maxLen - overlap)
    decreases |text| - i
  {
    var e := WindowEnd(|text|, maxLen, i);
    if e < |text| {
      var next := NextStart(|text|, maxLen, overlap, i);
      assert next == i + (maxLen - overlap);
      ChunksFromCount(text, maxLen, overlap, next);
    }
  }

  lemma ChunkCount(text: string, maxLen: nat, overlap: nat)
    requires overlap < maxLen < |text|
    ensures |Chunks(text, maxLen, overlap)| == CeilDiv(|text| - overlap, maxLen - overlap)
  {
    ChunksFromCount(text, maxLen, overlap, 0);
  }
}
