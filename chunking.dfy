/** The adaptive chunker: splits extracted PDF text into overlapping windows whose size
    depends on the length of the text, keeping at most a fixed number of chunks. */
module Chunking {
  import opened Wrappers
  import opened Seqs
  import opened Text

  const DefaultMinChunk := 900
  const DefaultMaxChunk := 1800
  const DefaultMaxChunks := 250
  /** The smallest overlap the chunker ever uses. */
  const MinOverlap := 120

  /** The window size chosen from the text length when the caller gives none. */
  function BandSize(textLen: nat): int
  {
    if textLen < 15_000 then 1000
    else if textLen < 80_000 then 1200
    else if textLen < 200_000 then 1500
    else 1800
  }

  /** The window size: the requested one, or the band size for the text length,
      clamped into [minChunk, maxChunk] (minChunk wins when the bounds cross). */
  function ResolveChunkSize(textLen: nat, requested: Option<int>, minChunk: int, maxChunk: int): (size: int)
    ensures size >= minChunk
    ensures minChunk <= maxChunk ==> size <= maxChunk
    ensures requested.Some? && minChunk <= requested.value <= maxChunk ==> size == requested.value
    ensures requested.None? && minChunk <= BandSize(textLen) <= maxChunk ==> size == BandSize(textLen)
  {
    var wanted := if requested.None? then BandSize(textLen) else requested.value;
    Max(minChunk, Min(maxChunk, wanted))
  }

  /** Out of range, the window size lands on a bound: too small (or crossed bounds) gives
      minChunk, too large gives maxChunk. */
  lemma ResolveChunkSizeClamps(textLen: nat, requested: Option<int>, minChunk: int, maxChunk: int)
    ensures var size := ResolveChunkSize(textLen, requested, minChunk, maxChunk);
            var wanted := if requested.None? then BandSize(textLen) else requested.value;
            (wanted < minChunk || maxChunk < minChunk ==> size == minChunk) &&
            (minChunk <= maxChunk < wanted ==> size == maxChunk)
  {
  }

  /** The overlap: the requested one, or 15% of the window size, clamped into
      [120, 30% of the window size]; the lower bound wins when the bounds cross.
      The float products int(size * 0.15) and int(size * 0.30) are taken as the
      integer quotients size * 15 / 100 and size * 30 / 100. */
  function ResolveOverlap(size: int, requested: Option<int>): (overlap: int)
    requires size >= 0
    ensures overlap >= MinOverlap
    ensures size * 30 / 100 >= MinOverlap ==> overlap <= size * 30 / 100
    ensures size > MinOverlap ==> overlap < size
    ensures requested.Some? && MinOverlap <= requested.value <= size * 30 / 100 ==> overlap == requested.value
  {
    var wanted := if requested.None? then size * 15 / 100 else requested.value;
    Max(MinOverlap, Min(wanted, size * 30 / 100))
  }

  /** Without a request the overlap is 15% of the window when that is at least 120; out of
      range it lands on a bound: too small (or crossed bounds) gives 120, too large gives 30%
      of the window. */
  lemma ResolveOverlapClamps(size: int, requested: Option<int>)
    requires size >= 0
    ensures var overlap := ResolveOverlap(size, requested);
            var wanted := if requested.None? then size * 15 / 100 else requested.value;
            (requested.None? && MinOverlap <= size * 15 / 100 ==> overlap == size * 15 / 100) &&
            (wanted < MinOverlap || size * 30 / 100 < MinOverlap ==> overlap == MinOverlap) &&
            (MinOverlap <= size * 30 / 100 < wanted ==> overlap == size * 30 / 100)
  {
  }

  /** Python's `text[start:start + size]`: the slice is cut short at the end of the text. */
  function Window(text: string, start: nat, size: nat): (w: string)
    ensures |w| <= size
  {
    text[Min(start, |text|)..Min(start + size, |text|)]
  }

  /** `k` steps of length `step`, added up one at a time. */
  function Offset(k: nat, step: nat): nat
  {
    if k == 0 then 0 else Offset(k - 1, step) + step
  }

  /** `k` steps of length `step` take the loop `k * step` characters forward. */
  lemma {:induction false} OffsetIsProduct(k: nat, step: nat)
    ensures Offset(k, step) == k * step
  {
    if k > 0 {
      OffsetIsProduct(k - 1, step);
    }
  }

  /** The stripped window whose start is `k` steps into the text. */
  function WindowAt(text: string, k: nat, size: nat, step: nat): string
  {
    Strip(Window(text, Offset(k, step), size))
  }

  /** The windows whose start lies in the text, from `start` on, one step apart. */
  function Windows(text: string, start: nat, size: nat, step: nat): seq<string>
    requires step > 0
    decreases |text| - start
  {
    if start >= |text| then [] else [Window(text, start, size)] + Windows(text, start + step, size, step)
  }

  predicate NonBlank(w: string) { |w| > 0 }

  /** The chunks collected from the window at `start` on, with room for `budget` more: the
      windows stripped, the blank ones dropped, and at most `budget` of the rest kept. */
  function ChunksFrom(text: string, start: nat, size: nat, step: nat, budget: int): seq<string>
    requires step > 0
  {
    Take(Filter(Map(Windows(text, start, size, step), Strip), NonBlank), budget)
  }

  /** The chunks of `text`, as a reference definition: nothing for an empty text, otherwise
      the chunks collected from the first window on, at most `maxChunks` of them. */
  function Chunks(text: string, chunkSize: Option<int>, overlap: Option<int>,
                  minChunk: int, maxChunk: int, maxChunks: int): seq<string>
    requires minChunk > MinOverlap
  {
    if |text| == 0 then []
    else
      var size := ResolveChunkSize(|text|, chunkSize, minChunk, maxChunk);
      ChunksFrom(text, 0, size, size - ResolveOverlap(size, overlap), maxChunks)
  }

  /** `chunk_text`: resolves the window size and the overlap, then slides the window. */
  method ChunkText(text: string, chunkSize: Option<int>, overlap: Option<int>,
                   minChunk: int, maxChunk: int, maxChunks: int) returns (chunks: seq<string>)
    requires minChunk > MinOverlap
    ensures chunks == Chunks(text, chunkSize, overlap, minChunk, maxChunk, maxChunks)
    ensures |text| == 0 ==> chunks == []
    ensures |chunks| <= Max(maxChunks, 0)
  {
    if |text| == 0 {
      return [];
    }
    var size := ResolveChunkSize(|text|, chunkSize, minChunk, maxChunk);
    var ov := ResolveOverlap(size, overlap);
    chunks := SlideWindow(text, size, ov, maxChunks);
    ChunksBounded(text, chunkSize, overlap, minChunk, maxChunk, maxChunks);
  }

  /** The sliding-window loop of `chunk_text`. It keeps, as its invariant, that the chunks
      collected so far followed by the chunks still to be collected from `start` on are the
      chunks of the whole text. */
  method SlideWindow(text: string, size: nat, ov: nat, maxChunks: int) returns (chunks: seq<string>)
    requires ov < size
    ensures chunks == ChunksFrom(text, 0, size, size - ov, maxChunks)
  {
    var totalLen := |text|;
    ghost var step := size - ov;
    ghost var all := ChunksFrom(text, 0, size, step, maxChunks);
    chunks := [];
    var start := 0;
    while start < totalLen && |chunks| < maxChunks
      invariant chunks + ChunksFrom(text, start, size, step, maxChunks - |chunks|) == all
      decreases totalLen - start
    {
      ghost var before := chunks;
      var end := start + size;
      var chunk := Strip(Window(text, start, size));
      if |chunk| > 0 {
        chunks := chunks + [chunk];
      }
      SlideAdvance(text, start, size, step, maxChunks, before, chunks);
      start := end - ov;
    }
    NothingLeft(text, start, size, step, maxChunks - |chunks|);
  }

  /** One turn of the loop keeps its invariant: the stripped window at `start` is appended
      when it is not blank, and the rest of the loop starts one step later. */
  lemma SlideAdvance(text: string, start: nat, size: nat, step: nat, maxChunks: int,
                     before: seq<string>, after: seq<string>)
    requires step > 0 && start < |text| && |before| < maxChunks
    requires after == if |Strip(Window(text, start, size))| > 0 then before + [Strip(Window(text, start, size))] else before
    ensures after + ChunksFrom(text, start + step, size, step, maxChunks - |after|)
            == before + ChunksFrom(text, start, size, step, maxChunks - |before|)
  {
    var w := Window(text, start, size);
    var rest := Windows(text, start + step, size, step);
    assert Windows(text, start, size, step) == [w] + rest;
    MapCons(w, rest, Strip);
    TakeFilterCons(Strip(w), Map(rest, Strip), NonBlank, maxChunks - |before|);
    if |Strip(w)| > 0 {
      var later := ChunksFrom(text, start + step, size, step, maxChunks - |before| - 1);
      assert (before + [Strip(w)]) + later == before + ([Strip(w)] + later);
    }
  }

  /** When the loop stops, nothing is left to collect. */
  lemma NothingLeft(text: string, start: nat, size: nat, step: nat, budget: int)
    requires step > 0 && (start >= |text| || budget <= 0)
    ensures ChunksFrom(text, start, size, step, budget) == []
  {
    if start >= |text| {
      assert Windows(text, start, size, step) == [];
    }
  }

  /** `chunk_text` never returns more than `max_chunks` chunks. */
  lemma ChunksBounded(text: string, chunkSize: Option<int>, overlap: Option<int>,
                      minChunk: int, maxChunk: int, maxChunks: int)
    requires minChunk > MinOverlap
    ensures |Chunks(text, chunkSize, overlap, minChunk, maxChunk, maxChunks)| <= Max(maxChunks, 0)
  {
    if |text| > 0 {
      var size := ResolveChunkSize(|text|, chunkSize, minChunk, maxChunk);
      var step := size - ResolveOverlap(size, overlap);
      TakePrefix(Filter(Map(Windows(text, 0, size, step), Strip), NonBlank), maxChunks);
    }
  }

  /** With the default bounds the band size is used as it is, so windows hold 900 to 1800
      characters; the default overlap is 15% of the window; and the start of the window
      moves forward by a positive step on every turn of the loop. */
  lemma DefaultParameters(textLen: nat)
    ensures var size := ResolveChunkSize(textLen, None, DefaultMinChunk, DefaultMaxChunk);
            size == BandSize(textLen) && DefaultMinChunk <= size <= DefaultMaxChunk &&
            ResolveOverlap(size, None) == size * 15 / 100 &&
            0 < size - ResolveOverlap(size, None)
  {
  }

  /** With the default bounds there are never more than 250 chunks. */
  lemma DefaultChunkCap(text: string)
    ensures |Chunks(text, None, None, DefaultMinChunk, DefaultMaxChunk, DefaultMaxChunks)| <= 250
  {
    ChunksBounded(text, None, None, DefaultMinChunk, DefaultMaxChunk, DefaultMaxChunks);
  }

  /** Longer texts never get smaller windows. */
  lemma BandSizeMonotone(shorter: nat, longer: nat)
    requires shorter <= longer
    ensures BandSize(shorter) <= BandSize(longer)
  {
  }

  /** The step between window starts is positive, so the loop always advances, and it is
      at most the window size less the smallest overlap. */
  lemma StepPositive(textLen: nat, chunkSize: Option<int>, overlap: Option<int>, minChunk: int, maxChunk: int)
    requires minChunk > MinOverlap
    ensures var size := ResolveChunkSize(textLen, chunkSize, minChunk, maxChunk);
            0 < size - ResolveOverlap(size, overlap) <= size - MinOverlap
  {
  }

  /** The windows walked from `start` are the ones starting `k` steps further on, for every
      `k` whose start still lies inside the text. */
  lemma {:induction false} WindowsAt(text: string, start: nat, size: nat, step: nat, k: nat)
    requires step > 0
    ensures k < |Windows(text, start, size, step)| <==> start + Offset(k, step) < |text|
    ensures start + Offset(k, step) < |text| ==>
              Windows(text, start, size, step)[k] == Window(text, start + Offset(k, step), size)
    decreases k
  {
    if start < |text| && k > 0 {
      WindowsAt(text, start + step, size, step, k - 1);
      OffsetFromSecond(k, step);
    }
  }

  /** Taking the first step and then `k - 1` more covers the same distance as `k` steps. */
  lemma {:induction false} OffsetFromSecond(k: nat, step: nat)
    requires k > 0
    ensures step + Offset(k - 1, step) == Offset(k, step)
  {
  }

  /** A stripped window is a contiguous piece of the text. */
  lemma StrippedWindowInText(text: string, start: nat, size: nat)
    requires start <= |text|
    ensures exists a: nat, b: nat :: a <= b <= |text| && Strip(Window(text, start, size)) == text[a..b]
  {
    var e := Min(start + size, |text|);
    var w := Window(text, start, size);
    assert w == text[start..e];
    StripIsTrimmedSlice(w);
    var lo := SkipSpaces(w, 0);
    var r := Strip(w);
    assert r == w[lo..lo + |r|];
    assert start + lo + |r| <= e;
    forall k | 0 <= k < |r|
      ensures r[k] == text[start + lo + k]
    {
      assert r[k] == w[lo + k];
    }
    assert r == text[start + lo..start + lo + |r|];
  }

  /** Every chunk is non-blank, is the stripped window at some multiple of the step inside the
      text, is no longer than a window, and is a contiguous piece of the text. */
  lemma ChunkIsStrippedWindow(text: string, chunkSize: Option<int>, overlap: Option<int>,
                              minChunk: int, maxChunk: int, maxChunks: int, c: string)
    requires minChunk > MinOverlap
    requires c in Chunks(text, chunkSize, overlap, minChunk, maxChunk, maxChunks)
    ensures |text| > 0
    ensures var size := ResolveChunkSize(|text|, chunkSize, minChunk, maxChunk);
            var step := size - ResolveOverlap(size, overlap);
            0 < |c| <= size &&
            exists k: nat :: Offset(k, step) < |text| && c == WindowAt(text, k, size, step)
    ensures exists a: nat, b: nat :: a <= b <= |text| && c == text[a..b]
  {
    var size := ResolveChunkSize(|text|, chunkSize, minChunk, maxChunk);
    ChunkFromWindow(text, size, size - ResolveOverlap(size, overlap), maxChunks, c);
  }

  /** A chunk collected from the first window on is a non-blank stripped window at some
      multiple of the step, and a contiguous piece of the text. */
  lemma ChunkFromWindow(text: string, size: nat, step: nat, budget: int, c: string)
    requires step > 0
    requires c in ChunksFrom(text, 0, size, step, budget)
    ensures |text| > 0 && 0 < |c| <= size
    ensures exists k: nat :: Offset(k, step) < |text| && c == WindowAt(text, k, size, step)
    ensures exists a: nat, b: nat :: a <= b <= |text| && c == text[a..b]
  {
    var windows := Windows(text, 0, size, step);
    var stripped := Map(windows, Strip);
    TakeFilterMembers(stripped, NonBlank, budget, c);
    var k :| 0 <= k < |stripped| && stripped[k] == c;
    MapAt(windows, Strip, k);
    WindowsAt(text, 0, size, step, k);
    assert c == WindowAt(text, k, size, step);
    StrippedWindowInText(text, Offset(k, step), size);
  }

  /** The chunks come in the order of their windows' starts: they are a subsequence of the
      stripped windows. */
  lemma ChunksInWindowOrder(text: string, chunkSize: Option<int>, overlap: Option<int>,
                            minChunk: int, maxChunk: int, maxChunks: int)
    requires minChunk > MinOverlap
    ensures var size := ResolveChunkSize(|text|, chunkSize, minChunk, maxChunk);
            var step := size - ResolveOverlap(size, overlap);
            IsSubsequence(Chunks(text, chunkSize, overlap, minChunk, maxChunk, maxChunks),
                          Map(Windows(text, 0, size, step), Strip))
  {
    var size := ResolveChunkSize(|text|, chunkSize, minChunk, maxChunk);
    var step := size - ResolveOverlap(size, overlap);
    var stripped := Map(Windows(text, 0, size, step), Strip);
    var kept := Filter(stripped, NonBlank);
    TakePrefix(kept, maxChunks);
    FilterKeepsExactly(stripped, NonBlank);
    PrefixSubsequence(kept, |Take(kept, maxChunks)|, stripped);
  }

  /** A blank window is skipped without stopping the loop: every non-blank stripped window
      that fewer than `maxChunks` non-blank windows precede ends up among the chunks. */
  lemma EveryNonBlankWindowKept(text: string, chunkSize: Option<int>, overlap: Option<int>,
                                minChunk: int, maxChunk: int, maxChunks: int, k: nat)
    requires minChunk > MinOverlap
    requires var size := ResolveChunkSize(|text|, chunkSize, minChunk, maxChunk);
             var step := size - ResolveOverlap(size, overlap);
             k < |Windows(text, 0, size, step)| && |WindowAt(text, k, size, step)| > 0 &&
             |Filter(Map(Windows(text, 0, size, step), Strip)[..k], NonBlank)| < maxChunks
    ensures var size := ResolveChunkSize(|text|, chunkSize, minChunk, maxChunk);
            var step := size - ResolveOverlap(size, overlap);
            WindowAt(text, k, size, step) in Chunks(text, chunkSize, overlap, minChunk, maxChunk, maxChunks)
  {
    var size := ResolveChunkSize(|text|, chunkSize, minChunk, maxChunk);
    WindowKept(text, size, size - ResolveOverlap(size, overlap), maxChunks, k);
  }

  lemma WindowKept(text: string, size: nat, step: nat, budget: int, k: nat)
    requires step > 0
    requires k < |Windows(text, 0, size, step)| && |WindowAt(text, k, size, step)| > 0
    requires |Filter(Map(Windows(text, 0, size, step), Strip)[..k], NonBlank)| < budget
    ensures WindowAt(text, k, size, step) in ChunksFrom(text, 0, size, step, budget)
  {
    var windows := Windows(text, 0, size, step);
    var stripped := Map(windows, Strip);
    var c := WindowAt(text, k, size, step);
    WindowsAt(text, 0, size, step, k);
    MapAt(windows, Strip, k);
    assert stripped[k] == c;
    var before := Filter(stripped[..k], NonBlank);
    assert stripped == stripped[..k] + stripped[k..];
    FilterAppend(stripped[..k], stripped[k..], NonBlank);
    assert stripped[k..] == [c] + stripped[k + 1..];
    assert Filter(stripped[k..], NonBlank) == [c] + Filter(stripped[k + 1..], NonBlank);
    var kept := Filter(stripped, NonBlank);
    assert kept[|before|] == c;
    TakePrefix(kept, budget);
    assert |before| < |Take(kept, budget)|;
    assert Take(kept, budget)[|before|] == c;
}
}
