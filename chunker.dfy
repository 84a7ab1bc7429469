/**
 * The fixed-window chunker of `Retriever` (rag/retriever.py): the overlap and
 * step derived from `chunk_size` and `overlap_ratio`, and `_chunk_text`, which
 * takes one window `text[start:start + chunk_size]` at every `start` in
 * `range(0, len(text), step)` and keeps the windows that are not whitespace only.
 */
module Chunker {
  import opened Text

  /** Python's `int(x)` applied to the exact quotient `a / b`: truncation toward zero
      (Dafny's own `/` rounds toward minus infinity for a negative dividend). */
  function TruncDiv(a: int, b: int): int
    requires b > 0
  {
    if a >= 0 then a / b else -((-a) / b)
  }

  /** The truncated quotient is the largest multiple of `b` not beyond `a` on the
      side of zero. */
  lemma TruncDivBounds(a: int, b: int)
    requires b > 0
    ensures a >= 0 ==> 0 <= b * TruncDiv(a, b) <= a < b * TruncDiv(a, b) + b
    ensures a < 0 ==> b * TruncDiv(a, b) - b < a <= b * TruncDiv(a, b) <= 0
  {
    if a >= 0 {
      FloorDivBounds(a, b);
    } else {
      FloorDivBounds(-a, b);
      assert b * TruncDiv(a, b) == -(b * ((-a) / b));
    }
  }

  /** Euclidean division of a natural number. */
  lemma FloorDivBounds(a: nat, b: int)
    requires b > 0
    ensures 0 <= b * (a / b) <= a < b * (a / b) + b
  {
    var q, r := a / b, a % b;
    assert a == b * q + r && 0 <= r < b;
    MulNonNegative(b, q);
  }

  lemma MulNonNegative(x: int, y: int)
    requires x >= 0 && y >= 0
    ensures x * y >= 0
  {
  }

  /** Dividing both sides of `x * d < y * d` by a positive `d`. */
  lemma CancelFactor(x: int, y: int, d: int)
    requires d > 0 && x * d < y * d
    ensures x < y
  {
  }

  lemma MulMonotone(x: nat, y: nat, d: nat)
    requires x <= y
    ensures x * d <= y * d
  {
    assert y * d - x * d == (y - x) * d;
  }

  /** `int(chunk_size * overlap_ratio)`, the ratio given as `ratioNum / ratioDen`. */
  function Overlap(chunkSize: int, ratioNum: int, ratioDen: int): int
    requires ratioDen > 0
  {
    TruncDiv(chunkSize * ratioNum, ratioDen)
  }

  /** `chunk_size - overlap`: how far one window starts after the previous one. */
  function Step(chunkSize: int, ratioNum: int, ratioDen: int): int
    requires ratioDen > 0
  {
    chunkSize - Overlap(chunkSize, ratioNum, ratioDen)
  }

  /** With a ratio in [0, 1) and a positive chunk size, the overlap is the floor of
      `chunk_size * overlap_ratio`, it is smaller than the chunk, and so the step is
      positive and at most the chunk size; step and overlap make up the chunk. */
  lemma StepWithinChunk(chunkSize: int, ratioNum: int, ratioDen: int)
    requires ratioDen > 0 && chunkSize > 0 && 0 <= ratioNum < ratioDen
    ensures Overlap(chunkSize, ratioNum, ratioDen) == chunkSize * ratioNum / ratioDen
    ensures 0 <= Overlap(chunkSize, ratioNum, ratioDen) < chunkSize
    ensures 0 < Step(chunkSize, ratioNum, ratioDen) <= chunkSize
    ensures Step(chunkSize, ratioNum, ratioDen) + Overlap(chunkSize, ratioNum, ratioDen) == chunkSize
  {
    var q := Overlap(chunkSize, ratioNum, ratioDen);
    TruncDivBounds(chunkSize * ratioNum, ratioDen);
    assert chunkSize * ratioDen - chunkSize * ratioNum == chunkSize * (ratioDen - ratioNum);
    assert chunkSize * ratioNum < chunkSize * ratioDen;
    CancelFactor(q, chunkSize, ratioDen);
  }

  /** A ratio of 1 or more leaves no positive step; nothing in the constructor
      rejects it, and `range(0, n, 0)` then raises. */
  lemma FullOverlapHasNoStep(chunkSize: int, ratioNum: int, ratioDen: int)
    requires ratioDen > 0 && chunkSize > 0 && ratioNum >= ratioDen
    ensures Step(chunkSize, ratioNum, ratioDen) <= 0
  {
    var q := Overlap(chunkSize, ratioNum, ratioDen);
    TruncDivBounds(chunkSize * ratioNum, ratioDen);
    assert chunkSize * ratioNum - chunkSize * ratioDen == chunkSize * (ratioNum - ratioDen);
    assert (chunkSize - 1) * ratioDen == chunkSize * ratioDen - ratioDen;
    assert (chunkSize - 1) * ratioDen < q * ratioDen;
    CancelFactor(chunkSize - 1, q, ratioDen);
  }

  /** The defaults, `chunk_size=2000, overlap_ratio=0.15`, and the ones used by the
      retriever tests, `chunk_size=20, overlap_ratio=0.2`. */
  lemma DefaultSteps()
    ensures Overlap(2000, 15, 100) == 300 && Step(2000, 15, 100) == 1700
    ensures Overlap(20, 2, 10) == 4 && Step(20, 2, 10) == 16
  {
  }

  function Min(a: int, b: int): int {
    if a <= b then a else b
  }

  /** Python's `range(start, stop, step)` for a positive step. */
  function Range(start: nat, stop: nat, step: nat): (r: seq<nat>)
    requires step > 0
    decreases stop - start
  {
    if start >= stop then [] else [start] + Range(start + step, stop, step)
  }

  /** Every element of the range is below `stop`, the first is `start` and each
      next one is `step` further on. */
  lemma {:induction false} RangeShape(start: nat, stop: nat, step: nat)
    requires step > 0
    ensures var r := Range(start, stop, step);
      && (forall i | 0 <= i < |r| :: start <= r[i] < stop)
      && (|r| > 0 ==> r[0] == start)
      && (forall i | 0 <= i < |r| - 1 :: r[i + 1] == r[i] + step)
    decreases stop - start
  {
    if start < stop {
      RangeShape(start + step, stop, step);
    }
  }

  /** Element `k` of `range(start, stop, step)` is `start + k * step`. */
  lemma {:induction false} RangeElement(start: nat, stop: nat, step: nat, k: nat)
    requires step > 0 && k < |Range(start, stop, step)|
    ensures Range(start, stop, step)[k] == start + k * step
    decreases stop - start
  {
    if k > 0 {
      RangeElement(start + step, stop, step, k - 1);
      assert (k - 1) * step + step == k * step;
    }
  }

  /** `x / b` is the `m` whose multiple of `b` brackets `x`. */
  lemma DivFromBounds(x: nat, b: nat, m: nat)
    requires b > 0 && m * b <= x < m * b + b
    ensures x / b == m
  {
    var q, r := x / b, x % b;
    assert x == b * q + r && 0 <= r < b;
    assert b * q == q * b;
    if q < m {
      MulMonotone(q + 1, m, b);
    } else if q > m {
      MulMonotone(m + 1, q, b);
    }
  }

  /** `len(range(start, stop, step))` is `ceil((stop - start) / step)`. */
  lemma RangeLength(start: nat, stop: nat, step: nat)
    requires step > 0 && start <= stop
    ensures |Range(start, stop, step)| == (stop - start + step - 1) / step
  {
    var m := |Range(start, stop, step)|;
    RangeTail(start, stop, step);
    if m == 0 {
      assert start >= stop;
      DivFromBounds(step - 1, step, 0);
    } else {
      RangeShape(start, stop, step);
      RangeElement(start, stop, step, m - 1);
      assert m * step == (m - 1) * step + step;
      DivFromBounds(stop - start + step - 1, step, m);
    }
  }

  /** `text[start:start + chunk_size]`, clamped to the text as Python slices are. */
  function Window(text: string, chunkSize: nat, start: nat): (w: string)
    ensures |w| <= chunkSize
    ensures start <= |text| ==> start + |w| <= |text|
  {
    text[Min(start, |text|)..Min(start + chunkSize, |text|)]
  }

  /** Python's truthiness of `chunk.strip()`: by `StripEmptyIffBlank`, the stripped
      chunk is non-empty exactly when the chunk has a non-space character. */
  predicate Kept(chunk: string) {
    !IsBlank(chunk)
  }

  /** The windows at `starts` that are not whitespace only, in order. */
  function ChunksAt(text: string, chunkSize: nat, starts: seq<nat>): (chunks: seq<string>)
    decreases |starts|
  {
    if starts == [] then []
    else
      var n := |starts| - 1;
      var w := Window(text, chunkSize, starts[n]);
      ChunksAt(text, chunkSize, starts[..n]) + (if Kept(w) then [w] else [])
  }

  /** Which of the `starts` give a chunk: positions into `starts`, in order. */
  function KeptAt(text: string, chunkSize: nat, starts: seq<nat>): (ks: seq<nat>)
    decreases |starts|
  {
    if starts == [] then []
    else
      var n := |starts| - 1;
      KeptAt(text, chunkSize, starts[..n]) + (if Kept(Window(text, chunkSize, starts[n])) then [n] else [])
  }

  /** The `i`-th chunk is the window at `starts[KeptAt(..)[i]]`. */
  lemma {:induction false} ChunksAtAreWindows(text: string, chunkSize: nat, starts: seq<nat>)
    ensures var chunks := ChunksAt(text, chunkSize, starts);
            var ks := KeptAt(text, chunkSize, starts);
      && |chunks| == |ks| <= |starts|
      && forall i | 0 <= i < |ks| ::
           ks[i] < |starts| && chunks[i] == Window(text, chunkSize, starts[ks[i]])
    decreases |starts|
  {
    if starts != [] {
      var n := |starts| - 1;
      var pre := starts[..n];
      ChunksAtAreWindows(text, chunkSize, pre);
      var chunks', ks' := ChunksAt(text, chunkSize, pre), KeptAt(text, chunkSize, pre);
      var chunks, ks := ChunksAt(text, chunkSize, starts), KeptAt(text, chunkSize, starts);
      forall i | 0 <= i < |ks'|
        ensures ks[i] < |starts| && chunks[i] == Window(text, chunkSize, starts[ks[i]])
      {
        assert ks[i] == ks'[i] && chunks[i] == chunks'[i];
        assert pre[ks'[i]] == starts[ks'[i]];
      }
    }
  }

  /** The kept positions lie inside `starts` and increase. */
  lemma {:induction false} KeptAtIncreasing(text: string, chunkSize: nat, starts: seq<nat>)
    ensures forall i | 0 <= i < |KeptAt(text, chunkSize, starts)| ::
              KeptAt(text, chunkSize, starts)[i] < |starts|
    ensures forall i, j | 0 <= i < j < |KeptAt(text, chunkSize, starts)| ::
              KeptAt(text, chunkSize, starts)[i] < KeptAt(text, chunkSize, starts)[j]
    decreases |starts|
  {
    if starts != [] {
      var n := |starts| - 1;
      var ks' := KeptAt(text, chunkSize, starts[..n]);
      KeptAtIncreasing(text, chunkSize, starts[..n]);
      var ks := KeptAt(text, chunkSize, starts);
      assert forall i | 0 <= i < |ks'| :: ks'[i] < n;
      assert ks == ks' || ks == ks' + [n];
    }
  }

  /** A position is kept exactly when its window is not whitespace only. */
  lemma {:induction false} KeptAtExactly(text: string, chunkSize: nat, starts: seq<nat>, k: nat)
    requires k < |starts|
    ensures k in KeptAt(text, chunkSize, starts) <==> Kept(Window(text, chunkSize, starts[k]))
    decreases |starts|
  {
    var n := |starts| - 1;
    var pre := starts[..n];
    var ks' := KeptAt(text, chunkSize, pre);
    if k < n {
      KeptAtExactly(text, chunkSize, pre, k);
      assert pre[k] == starts[k];
    } else {
      KeptAtIncreasing(text, chunkSize, pre);
      assert n !in ks';
    }
  }

  /** What `_chunk_text(text)` yields, in order, with `step > 0`. */
  function Chunks(text: string, chunkSize: nat, step: nat): seq<string>
    requires step > 0
  {
    ChunksAt(text, chunkSize, Range(0, |text|, step))
  }

  /** The window numbers `k` (window `k` starts at `k * step`) that give the chunks. */
  function KeptWindows(text: string, chunkSize: nat, step: nat): seq<nat>
    requires step > 0
  {
    KeptAt(text, chunkSize, Range(0, |text|, step))
  }

  /** There is one chunk per kept window, so at most `ceil(len(text) / step)`. */
  lemma ChunkCount(text: string, chunkSize: nat, step: nat)
    requires step > 0
    ensures |Chunks(text, chunkSize, step)| == |KeptWindows(text, chunkSize, step)|
    ensures |Chunks(text, chunkSize, step)| <= (|text| + step - 1) / step
  {
    RangeLength(0, |text|, step);
    ChunksAtAreWindows(text, chunkSize, Range(0, |text|, step));
  }

  /** Chunk `i` is the window `text[k*step : k*step + chunk_size]` for the `i`-th
      kept window number `k`, which starts inside the text. */
  lemma ChunkIsWindow(text: string, chunkSize: nat, step: nat, i: nat)
    requires step > 0 && i < |KeptWindows(text, chunkSize, step)|
    ensures i < |Chunks(text, chunkSize, step)|
    ensures var k := KeptWindows(text, chunkSize, step)[i];
      && k * step < |text|
      && Chunks(text, chunkSize, step)[i] == Window(text, chunkSize, k * step)
  {
    var starts := Range(0, |text|, step);
    RangeShape(0, |text|, step);
    ChunksAtAreWindows(text, chunkSize, starts);
    RangeElement(0, |text|, step, KeptWindows(text, chunkSize, step)[i]);
  }

  /** The kept window numbers increase, so the chunks come in text order. */
  lemma KeptWindowsIncrease(text: string, chunkSize: nat, step: nat)
    requires step > 0
    ensures forall i, j | 0 <= i < j < |KeptWindows(text, chunkSize, step)| ::
              KeptWindows(text, chunkSize, step)[i] < KeptWindows(text, chunkSize, step)[j]
  {
    KeptAtIncreasing(text, chunkSize, Range(0, |text|, step));
  }

  /** Every window that starts inside the text gives a chunk exactly when it is not
      whitespace only. */
  lemma WindowKeptIff(text: string, chunkSize: nat, step: nat, k: nat)
    requires step > 0 && k * step < |text|
    ensures k in KeptWindows(text, chunkSize, step) <==> Kept(Window(text, chunkSize, k * step))
  {
    var starts := Range(0, |text|, step);
    if k >= |starts| {
      RangeTail(0, |text|, step);
      MulMonotone(|starts|, k, step);
      assert false;
    }
    RangeElement(0, |text|, step, k);
    KeptAtExactly(text, chunkSize, starts, k);
  }

  /** One step past the last element of a range reaches `stop`. */
  lemma {:induction false} RangeTail(start: nat, stop: nat, step: nat)
    requires step > 0
    ensures start + |Range(start, stop, step)| * step >= stop
    decreases stop - start
  {
    if start < stop {
      RangeTail(start + step, stop, step);
      var m := |Range(start + step, stop, step)|;
      assert (m + 1) * step == m * step + step;
    }
  }

  /** No chunk is longer than `chunk_size`, and every chunk has a non-space
      character. */
  lemma {:induction false} ChunksAtShortAndNonBlank(text: string, chunkSize: nat, starts: seq<nat>)
    ensures forall c | c in ChunksAt(text, chunkSize, starts) :: |c| <= chunkSize && !IsBlank(c)
    decreases |starts|
  {
    if starts != [] {
      ChunksAtShortAndNonBlank(text, chunkSize, starts[..|starts| - 1]);
    }
  }

  /** Every chunk `_chunk_text` yields is at most `chunk_size` long and strips to
      something non-empty. */
  lemma ChunksShortAndNonBlank(text: string, chunkSize: nat, step: nat)
    requires step > 0
    ensures forall c | c in Chunks(text, chunkSize, step) :: |c| <= chunkSize && !IsBlank(c) && Strip(c) != []
  {
    ChunksAtShortAndNonBlank(text, chunkSize, Range(0, |text|, step));
    forall c | c in Chunks(text, chunkSize, step)
      ensures Strip(c) != []
    {
      StripEmptyIffBlank(c);
    }
  }

  /** A full window and the one `step` further on share `chunk_size - step`
      characters. */
  lemma WindowsOverlap(text: string, chunkSize: nat, start: nat, step: nat)
    requires 0 < step <= chunkSize && start + chunkSize <= |text|
    ensures |Window(text, chunkSize, start + step)| >= chunkSize - step
    ensures Window(text, chunkSize, start)[step..] == Window(text, chunkSize, start + step)[..chunkSize - step]
  {
    var w, v := Window(text, chunkSize, start), Window(text, chunkSize, start + step);
    assert w == text[start..start + chunkSize];
    assert v == text[start + step..Min(start + step + chunkSize, |text|)];
    assert w[step..] == text[start + step..start + chunkSize];
    assert v[..chunkSize - step] == text[start + step..start + chunkSize];
  }

  /** Two chunks cut from neighbouring windows, the first at its full length,
      share `overlap = chunk_size - step` characters: the last `overlap`
      characters of the first are the first `overlap` of the second. */
  lemma NeighbouringChunksOverlap(text: string, chunkSize: nat, step: nat, i: nat)
    requires 0 < step <= chunkSize
    requires i + 1 < |KeptWindows(text, chunkSize, step)| && i + 1 < |Chunks(text, chunkSize, step)|
    requires KeptWindows(text, chunkSize, step)[i + 1] == KeptWindows(text, chunkSize, step)[i] + 1
    requires |Chunks(text, chunkSize, step)[i]| == chunkSize
    ensures var c := Chunks(text, chunkSize, step);
      |c[i + 1]| >= chunkSize - step && c[i][step..] == c[i + 1][..chunkSize - step]
  {
    var k := KeptWindows(text, chunkSize, step)[i];
    ChunkIsWindow(text, chunkSize, step, i);
    ChunkIsWindow(text, chunkSize, step, i + 1);
    assert (k + 1) * step == k * step + step;
    WindowsOverlap(text, chunkSize, k * step, step);
  }

  lemma ChunksAtStep(text: string, chunkSize: nat, starts: seq<nat>, i: nat)
    requires i < |starts|
    ensures ChunksAt(text, chunkSize, starts[..i + 1])
         == ChunksAt(text, chunkSize, starts[..i])
          + (if Kept(Window(text, chunkSize, starts[i])) then [Window(text, chunkSize, starts[i])] else [])
  {
    assert starts[..i + 1][..i] == starts[..i];
  }

  /** `_chunk_text`: one window per `start` in `range(0, len(text), step)`, kept
      when its `strip()` is non-empty. */
  method ChunkText(text: string, chunkSize: nat, step: nat) returns (chunks: seq<string>)
    requires step > 0
    ensures chunks == Chunks(text, chunkSize, step)
  {
    var starts := Range(0, |text|, step);
    RangeShape(0, |text|, step);
    chunks := [];
    for i := 0 to |starts|
      invariant chunks == ChunksAt(text, chunkSize, starts[..i])
    {
      var start := starts[i];
      var chunk := text[start..Min(start + chunkSize, |text|)];
      ChunksAtStep(text, chunkSize, starts, i);
      assert chunk == Window(text, chunkSize, start);
      StripEmptyIffBlank(chunk);
      if Strip(chunk) != [] {
        chunks := chunks + [chunk];
      }
    }
    assert starts[..|starts|] == starts;
  }

}
