/** `idwt_x`, `idwt_y` and the three extrapolating levels, proved against Extrapolate. */
module ExtrapolateDecoder {
  import opened Machine
  import opened Matrices
  import opened Blocks
  import opened Grid
  import opened Extrapolate

  /** The first `n` samples of the line are in place. */
  ghost predicate Ready(d: Line, low: Line, high: Line, n: nat) {
    && Counts(|low|, |high|) && |d| == |low| + |high| && n <= |d|
    && forall i :: 0 <= i < n ==> d[i] == Sample(low, high, i)
  }

  lemma ReadyStep(d: Line, low: Line, high: Line, n: nat, v: I16)
    requires Ready(d, low, high, n) && n < |d|
    requires v == if n % 2 == 0 then Even(low, high, n / 2) else Clamp16(OddExact(low, high, n / 2))
    ensures Ready(d[n := v], low, high, n + 1)
  {
    hide Even, OddExact, Clamp16;
  }

  lemma EvenReady(d: Line, low: Line, high: Line, k: nat, v: I16)
    requires Ready(d, low, high, 2 * k) && 2 * k < |d| && v == Even(low, high, k)
    ensures Ready(d[2 * k := v], low, high, 2 * k + 1)
  {
    hide Even, OddExact, Clamp16, Ready;
    ReadyStep(d, low, high, 2 * k, v);
  }

  lemma OddReady(d: Line, low: Line, high: Line, k: nat, v: I16)
    requires Ready(d, low, high, 2 * k + 1) && 2 * k + 1 < |d| && v == Clamp16(OddExact(low, high, k))
    ensures Ready(d[2 * k + 1 := v], low, high, 2 * k + 2)
  {
    hide Even, OddExact, Clamp16, Ready;
    ReadyStep(d, low, high, 2 * k + 1, v);
  }

  lemma AllReady(d: Line, low: Line, high: Line)
    requires Ready(d, low, high, |d|)
    ensures d == Synthesis(low, high)
  {
    hide Sample;
  }

  /** One row: `low` and `high` are where its bands start in `src`. */
  method IdwtRow(src: array<I16>, low: nat, high: nat, dst: array<I16>, at: nat, lowCount: nat, highCount: nat)
    requires src != dst && Counts(lowCount, highCount)
    requires low + lowCount <= src.Length && high + highCount <= src.Length && at + lowCount + highCount <= dst.Length
    modifies dst
    ensures dst[at..at + lowCount + highCount] == Synthesis(src[low..low + lowCount], src[high..high + highCount])
    ensures dst[..at] == old(dst[..at])
    ensures dst[at + lowCount + highCount..] == old(dst[at + lowCount + highCount..])
  {
    hide Ready, Clamp16, HalfTowardsZero, Sample, Synthesis, Even, OddExact;
    var end := at + lowCount + highCount;
    ghost var l, h := src[low..low + lowCount], src[high..high + highCount];
    ghost var d: Line := dst[at..end];
    NothingReady(d, l, h);
    var h0 := src[high];
    var l0 := src[low];
    var pX := at;
    var x0 := Clamp16(l0 as int - h0 as int);
    var x2 := x0;
    FirstEven(l, h);
    for k := 0 to highCount - 1
      invariant pX == at + 2 * k && h0 == h[k] && x0 == x2 == Even(l, h, k)
      invariant dst[at..end] == d && |d| == lowCount + highCount && Ready(d, l, h, 2 * k)
      invariant dst[..at] == old(dst[..at]) && dst[end..] == old(dst[end..])
    {
      var h1 := src[high + k + 1];
      l0 := src[low + k + 1];
      x2 := Clamp16(l0 as int - HalfTowardsZero(h0 as int + h1 as int));
      var x1 := Clamp16(HalfTowardsZero(x0 as int + x2 as int) + 2 * h0 as int);
      InnerPair(l, h, k, x0, x1, x2);
      dst[pX] := x0;
      dst[pX + 1] := x1;
      ReadyStep(d, l, h, 2 * k, x0);
      ReadyStep(d[2 * k := x0], l, h, 2 * k + 1, x1);
      d := d[2 * k := x0][2 * k + 1 := x1];
      pX := pX + 2;
      x0 := x2;
      h0 := h1;
    }
    FinishRow(src, low, high, dst, at, lowCount, highCount, h0, x2, d);
  }

  lemma FirstEven(low: Line, high: Line)
    requires Counts(|low|, |high|)
    ensures Even(low, high, 0) == Clamp16(low[0] as int - high[0] as int)
  {
  }

  lemma NothingReady(d: Line, low: Line, high: Line)
    requires Counts(|low|, |high|) && |d| == |low| + |high|
    ensures Ready(d, low, high, 0)
  {
  }

  /** The end of a row, which depends on how many more low than high samples there are. */
  method FinishRow(src: array<I16>, low: nat, high: nat, dst: array<I16>, at: nat, lowCount: nat, highCount: nat,
                   h0: I16, x2: I16, ghost sofar: Line)
    requires src != dst && Counts(lowCount, highCount)
    requires low + lowCount <= src.Length && high + highCount <= src.Length && at + lowCount + highCount <= dst.Length
    requires h0 == src[high + highCount - 1]
    requires x2 == Even(src[low..low + lowCount], src[high..high + highCount], highCount - 1)
    requires dst[at..at + lowCount + highCount] == sofar
    requires Ready(sofar, src[low..low + lowCount], src[high..high + highCount], 2 * highCount - 2)
    modifies dst
    ensures dst[at..at + lowCount + highCount] == Synthesis(src[low..low + lowCount], src[high..high + highCount])
    ensures dst[..at] == old(dst[..at])
    ensures dst[at + lowCount + highCount..] == old(dst[at + lowCount + highCount..])
  {
    hide Ready, Clamp16, HalfTowardsZero, Sample, Synthesis, Even, OddExact;
    ghost var l, h := src[low..low + lowCount], src[high..high + highCount];
    ghost var d := sofar;
    ghost var k := highCount - 1;
    var pX := at + 2 * (highCount - 1);
    EvenReady(d, l, h, k, x2);
    dst[pX] := x2;
    d := d[2 * k := x2];
    if lowCount <= highCount {
      LastOddShort(l, h);
      var x1 := Clamp16(x2 as int + 2 * h0 as int);
      OddReady(d, l, h, k, x1);
      dst[pX + 1] := x1;
      d := d[2 * k + 1 := x1];
    } else {
      var x0, x1 := FinishPair(l, h, lowCount, highCount, src[low + highCount], h0, x2);
      OddReady(d, l, h, k, x1);
      dst[pX + 1] := x1;
      d := d[2 * k + 1 := x1];
      EvenReady(d, l, h, k + 1, x0);
      dst[pX + 2] := x0;
      d := d[2 * k + 2 := x0];
      if lowCount > highCount + 1 {
        var l1 := src[low + highCount + 1];
        var x3 := Clamp16(HalfTowardsZero(x0 as int + l1 as int));
        LastOdd(l, h);
        OddReady(d, l, h, k + 1, x3);
        dst[pX + 3] := x3;
        d := d[2 * k + 3 := x3];
      }
    }
    AllReady(d, l, h);
  }

  /** The even sample behind the last high one, and the odd sample before it. */
  method FinishPair(ghost low: Line, ghost high: Line, lowCount: nat, highCount: nat, l0: I16, h0: I16, x2: I16)
    returns (x0: I16, x1: I16)
    requires lowCount == |low| && highCount == |high|
    requires Counts(|low|, |high|) && |low| > |high|
    requires l0 == low[|high|] && h0 == high[|high| - 1] && x2 == Even(low, high, |high| - 1)
    ensures x0 == Even(low, high, |high|)
    ensures x1 == Clamp16(OddExact(low, high, |high| - 1))
  {
    hide Clamp16, HalfTowardsZero;
    x0 := if lowCount <= highCount + 1 then Clamp16(l0 as int - h0 as int) else Clamp16(l0 as int - HalfTowardsZero(h0));
    x1 := Clamp16(HalfTowardsZero(x0 as int + x2 as int) + 2 * h0 as int);
  }

  lemma LastOdd(low: Line, high: Line)
    requires Counts(|low|, |high|) && |low| == |high| + 2
    ensures OddExact(low, high, |high|) == HalfTowardsZero(Even(low, high, |high|) as int + low[|high| + 1] as int)
  {
  }

  lemma LastOddShort(low: Line, high: Line)
    requires Counts(|low|, |high|) && |low| == |high|
    ensures OddExact(low, high, |high| - 1) == Even(low, high, |high| - 1) as int + 2 * high[|high| - 1] as int
  {
  }

  /**
   The horizontal half-pass: row r of the low and of the high band become row `first + r` of
   the scratch block. The strides the client passes are the widths of the bands and of the
   scratch block.
   */
  method IdwtX(src: array<I16>, lowBase: nat, highBase: nat, dst: array<I16>, dstStep: nat, first: nat,
               lowCount: nat, highCount: nat, dstCount: nat)
    requires src != dst && Counts(lowCount, highCount) && dstStep == lowCount + highCount
    requires At(lowBase, lowCount, dstCount, 0) <= src.Length && At(highBase, highCount, dstCount, 0) <= src.Length
    requires At(0, dstStep, first + dstCount, 0) <= dst.Length
    modifies dst
    ensures Block(dst[..], 0, dstStep, first, dstCount)
         == Rows(Block(src[..], lowBase, lowCount, 0, dstCount), Block(src[..], highBase, highCount, 0, dstCount),
                 dstCount, lowCount, highCount)
    ensures forall k: nat :: k < first ==>
              RowOf(dst[..], 0, dstStep, k) == RowOf(old(dst[..]), 0, dstStep, k)
  {
    hide Synthesis, RowOf, At;
    for r := 0 to dstCount
      invariant forall k :: first <= k < first + r ==>
                  RowOf(dst[..], 0, dstStep, k)
                  == Synthesis(RowOf(src[..], lowBase, lowCount, k - first), RowOf(src[..], highBase, highCount, k - first))
      invariant forall k: nat :: k < first ==> RowOf(dst[..], 0, dstStep, k) == RowOf(old(dst[..]), 0, dstStep, k)
    {
      IdwtRowInto(src, lowBase, highBase, dst, dstStep, first + r, r, lowCount, highCount, first + dstCount, dstCount);
    }
    assert forall k :: 0 <= k < dstCount ==>
      Block(dst[..], 0, dstStep, first, dstCount)[k] == RowOf(dst[..], 0, dstStep, first + k);
  }

  method IdwtRowInto(src: array<I16>, lowBase: nat, highBase: nat, dst: array<I16>, dstStep: nat, to: nat, from: nat,
                     lowCount: nat, highCount: nat, dstRows: nat, srcRows: nat)
    requires src != dst && Counts(lowCount, highCount) && dstStep == lowCount + highCount && to < dstRows && from < srcRows
    requires At(lowBase, lowCount, srcRows, 0) <= src.Length && At(highBase, highCount, srcRows, 0) <= src.Length
    requires At(0, dstStep, dstRows, 0) <= dst.Length
    modifies dst
    ensures RowOf(dst[..], 0, dstStep, to)
         == Synthesis(RowOf(src[..], lowBase, lowCount, from), RowOf(src[..], highBase, highCount, from))
    ensures forall k: nat :: k < dstRows && k != to ==>
              RowOf(dst[..], 0, dstStep, k) == RowOf(old(dst[..]), 0, dstStep, k)
  {
    hide Synthesis;
    AtInside(lowBase, lowCount, srcRows, from, 0);
    AtInside(highBase, highCount, srcRows, from, 0);
    AtInside(0, dstStep, dstRows, to, 0);
    var at := At(0, dstStep, to, 0);
    ghost var before := dst[..];
    IdwtRow(src, At(lowBase, lowCount, from, 0), At(highBase, highCount, from, 0), dst, at, lowCount, highCount);
    assert dst[..][..at] == before[..at] && dst[..][at + dstStep..] == before[at + dstStep..];
    OtherRowsKept(dst[..], before, 0, dstStep, to);
  }

  /** The low and the high half of column `x` of the scratch block. */
  function LowHalf(src: seq<I16>, n: nat, lowCount: nat, x: nat): (l: Line)
    requires x < n
    ensures |l| == lowCount
  {
    Column(Block(src, 0, n, 0, lowCount), x)
  }

  function HighHalf(src: seq<I16>, n: nat, lowCount: nat, highCount: nat, x: nat): (l: Line)
    requires x < n
    ensures |l| == highCount
  {
    Column(Block(src, 0, n, lowCount, highCount), x)
  }

  lemma HalvesAt(src: seq<I16>, n: nat, lowCount: nat, highCount: nat, x: nat)
    requires x < n == lowCount + highCount && At(0, n, n, 0) <= |src|
    ensures forall k: nat {:trigger At(0, n, k, x)} :: k < n ==>
              At(0, n, k, x) < |src| &&
              src[At(0, n, k, x)] ==
                if k < lowCount then LowHalf(src, n, lowCount, x)[k] else HighHalf(src, n, lowCount, highCount, x)[k - lowCount]
  {
    hide At;
    forall k: nat | k < n
      ensures At(0, n, k, x) < |src|
      ensures src[At(0, n, k, x)] ==
                if k < lowCount then LowHalf(src, n, lowCount, x)[k] else HighHalf(src, n, lowCount, highCount, x)[k - lowCount]
    {
      if k < lowCount {
        AtInside(0, n, n, k, 0);
        if highCount > 0 {
          AtInside(0, n, n, lowCount, 0);
        }
        ColumnAt(src, n, 0, lowCount, x, k);
      } else {
        ColumnAt(src, n, lowCount, highCount, x, k - lowCount);
      }
    }
  }

  /** One column, low half over high half; only cells of that column are written. */
  method IdwtColumn(src: array<I16>, dst: array<I16>, base: nat, dstStep: nat, x: nat, lowCount: nat, highCount: nat)
    requires src != dst && Counts(lowCount, highCount) && x < dstStep == lowCount + highCount
    requires At(0, dstStep, dstStep, 0) <= src.Length && At(base, dstStep, dstStep, 0) <= dst.Length
    modifies dst
    ensures Holds(dst[..], base, dstStep, x,
                  Synthesis(LowHalf(src[..], dstStep, lowCount, x), HighHalf(src[..], dstStep, lowCount, highCount, x)))
    ensures OnlyColumn(dst[..], old(dst[..]), base, dstStep, x)
  {
    hide Ready, Clamp16, HalfTowardsZero, Sample, Synthesis, At, Holds, OnlyColumn, LowHalf, HighHalf;
    ghost var before := dst[..];
    ghost var l := LowHalf(src[..], dstStep, lowCount, x);
    ghost var h := HighHalf(src[..], dstStep, lowCount, highCount, x);
    ghost var d: Line := ColumnCells(dst[..], base, dstStep, x);
    StartColumn(dst[..], base, dstStep, x);
    HalvesAt(src[..], dstStep, lowCount, highCount, x);
    NothingReady(d, l, h);
    AtZero(0, dstStep, x);
    AtZero(base, dstStep, x);
    var pL, pH, pX := x, At(0, dstStep, lowCount, x), base + x;
    var h0 := src[pH];
    var l0 := src[pL];
    var x0 := Clamp16(l0 as int - h0 as int);
    var x2 := x0;
    for k := 0 to highCount - 1
      invariant pL == At(0, dstStep, k, x) && pH == At(0, dstStep, lowCount + k, x) && pX == At(base, dstStep, 2 * k, x)
      invariant h0 == h[k] && x0 == x2 == Even(l, h, k)
      invariant |d| == lowCount + highCount && Ready(d, l, h, 2 * k)
      invariant Holds(dst[..], base, dstStep, x, d) && OnlyColumn(dst[..], before, base, dstStep, x)
    {
      AtCol(0, dstStep, k, x);
      AtCol(0, dstStep, lowCount + k, x);
      AtCol(base, dstStep, 2 * k, x);
      AtCol(base, dstStep, 2 * k + 1, x);
      pH := pH + dstStep;
      pL := pL + dstStep;
      var h1 := src[pH];
      l0 := src[pL];
      x2 := Clamp16(l0 as int - HalfTowardsZero(h0 as int + h1 as int));
      var x1 := Clamp16(HalfTowardsZero(x0 as int + x2 as int) + 2 * h0 as int);
      InnerPair(l, h, k, x0, x1, x2);
      ReadyStep(d, l, h, 2 * k, x0);
      ReadyStep(d[2 * k := x0], l, h, 2 * k + 1, x1);
      StoreSample(dst, base, dstStep, x, 2 * k, pX, x0, d, before);
      StoreSample(dst, base, dstStep, x, 2 * k + 1, pX + dstStep, x1, d[2 * k := x0], before);
      d := d[2 * k := x0][2 * k + 1 := x1];
      pX := pX + 2 * dstStep;
      x0 := x2;
      h0 := h1;
    }
    FinishColumn(src, dst, base, dstStep, x, lowCount, highCount, h0, x2, pX, d, before);
  }

  lemma InnerPair(low: Line, high: Line, k: nat, x0: I16, x1: I16, x2: I16)
    requires Counts(|low|, |high|) && k + 1 < |high| && x0 == Even(low, high, k)
    requires x2 == Clamp16(low[k + 1] as int - HalfTowardsZero(high[k] as int + high[k + 1] as int))
    requires x1 == Clamp16(HalfTowardsZero(x0 as int + x2 as int) + 2 * high[k] as int)
    ensures x2 == Even(low, high, k + 1) && x1 == Clamp16(OddExact(low, high, k))
  {
    hide Clamp16, HalfTowardsZero;
  }

  /** The end of a column. */
  method FinishColumn(src: array<I16>, dst: array<I16>, base: nat, dstStep: nat, x: nat, lowCount: nat, highCount: nat,
                      h0: I16, x2: I16, pX: nat, ghost sofar: Line, ghost before: seq<I16>)
    requires src != dst && Counts(lowCount, highCount) && x < dstStep == lowCount + highCount == |sofar|
    requires At(0, dstStep, dstStep, 0) <= src.Length && pX == At(base, dstStep, 2 * highCount - 2, x)
    requires var l := LowHalf(src[..], dstStep, lowCount, x);
             var h := HighHalf(src[..], dstStep, lowCount, highCount, x);
             h0 == h[highCount - 1] && x2 == Even(l, h, highCount - 1) && Ready(sofar, l, h, 2 * highCount - 2)
    requires Holds(dst[..], base, dstStep, x, sofar) && OnlyColumn(dst[..], before, base, dstStep, x)
    modifies dst
    ensures Holds(dst[..], base, dstStep, x,
                  Synthesis(LowHalf(src[..], dstStep, lowCount, x), HighHalf(src[..], dstStep, lowCount, highCount, x)))
    ensures OnlyColumn(dst[..], before, base, dstStep, x)
  {
    hide Ready, Clamp16, HalfTowardsZero, Sample, Synthesis, At, Holds, OnlyColumn, LowHalf, HighHalf, Even, OddExact;
    ghost var l := LowHalf(src[..], dstStep, lowCount, x);
    ghost var h := HighHalf(src[..], dstStep, lowCount, highCount, x);
    HalvesAt(src[..], dstStep, lowCount, highCount, x);
    ghost var d := sofar;
    ghost var n := 2 * highCount - 2;
    AtCol(base, dstStep, n, x);
    AtCol(base, dstStep, n + 1, x);
    AtCol(base, dstStep, n + 2, x);
    ReadyStep(d, l, h, n, x2);
    StoreSample(dst, base, dstStep, x, n, pX, x2, d, before);
    d := d[n := x2];
    if lowCount <= highCount {
      LastOddShort(l, h);
      var x1 := Clamp16(x2 as int + 2 * h0 as int);
      ReadyStep(d, l, h, n + 1, x1);
      StoreSample(dst, base, dstStep, x, n + 1, pX + dstStep, x1, d, before);
      d := d[n + 1 := x1];
    } else {
      var x0, x1 := FinishPair(l, h, lowCount, highCount, src[At(0, dstStep, highCount, x)], h0, x2);
      ReadyStep(d, l, h, n + 1, x1);
      StoreSample(dst, base, dstStep, x, n + 1, pX + dstStep, x1, d, before);
      d := d[n + 1 := x1];
      ReadyStep(d, l, h, n + 2, x0);
      StoreSample(dst, base, dstStep, x, n + 2, pX + 2 * dstStep, x0, d, before);
      d := d[n + 2 := x0];
      if lowCount > highCount + 1 {
        var l1 := src[At(0, dstStep, highCount + 1, x)];
        var x3 := Clamp16(HalfTowardsZero(x0 as int + l1 as int));
        LastOdd(l, h);
        ReadyStep(d, l, h, n + 3, x3);
        StoreSample(dst, base, dstStep, x, n + 3, pX + 3 * dstStep, x3, d, before);
        d := d[n + 3 := x3];
      }
    }
    AllReady(d, l, h);
  }

  /** The vertical pass: every column of the scratch block, into the block at `base`. */
  method IdwtY(src: array<I16>, dst: array<I16>, base: nat, dstStep: nat, lowCount: nat, highCount: nat)
    requires src != dst && Counts(lowCount, highCount) && dstStep == lowCount + highCount
    requires At(0, dstStep, dstStep, 0) <= src.Length && At(base, dstStep, dstStep, 0) <= dst.Length
    modifies dst
    ensures forall x :: 0 <= x < dstStep ==>
              Holds(dst[..], base, dstStep, x,
                    Synthesis(LowHalf(src[..], dstStep, lowCount, x), HighHalf(src[..], dstStep, lowCount, highCount, x)))
    ensures base <= At(base, dstStep, dstStep, 0)
    ensures dst[..base] == old(dst[..base])
    ensures dst[At(base, dstStep, dstStep, 0)..] == old(dst[At(base, dstStep, dstStep, 0)..])
  {
    hide LowHalf, HighHalf, At, Synthesis, Holds, OnlyColumn;
    StartColumn(dst[..], base, dstStep, 0);
    KeptOutside(dst[..], dst[..], base, dstStep, 0);
    for x := 0 to dstStep
      invariant forall c :: 0 <= c < x ==>
                  Holds(dst[..], base, dstStep, c,
                        Synthesis(LowHalf(src[..], dstStep, lowCount, c), HighHalf(src[..], dstStep, lowCount, highCount, c)))
      invariant dst[..base] == old(dst[..base])
      invariant dst[At(base, dstStep, dstStep, 0)..] == old(dst[At(base, dstStep, dstStep, 0)..])
    {
      ghost var before := dst[..];
      IdwtColumn(src, dst, base, dstStep, x, lowCount, highCount);
      KeptOutside(dst[..], before, base, dstStep, x);
      forall c | 0 <= c < x
        ensures Holds(dst[..], base, dstStep, c,
                      Synthesis(LowHalf(src[..], dstStep, lowCount, c), HighHalf(src[..], dstStep, lowCount, highCount, c)))
      {
        StillHolds(dst[..], before, base, dstStep, x, c,
                   Synthesis(LowHalf(src[..], dstStep, lowCount, c), HighHalf(src[..], dstStep, lowCount, highCount, c)));
      }
    }
  }

  // ---------- One level, and all three ----------

  lemma PictureFromColumns(buffer: seq<I16>, temp: seq<I16>, base: nat, n: nat, lows: nat, highs: nat,
                           ll: Matrix, hl: Matrix, lh: Matrix, hh: Matrix)
    requires Counts(lows, highs) && n == lows + highs
    requires Rectangle(ll, lows, lows) && Rectangle(hl, lows, highs)
    requires Rectangle(lh, highs, lows) && Rectangle(hh, highs, highs)
    requires At(base, n, n, 0) <= |buffer|
    requires Block(temp, 0, n, 0, lows) == Rows(ll, hl, lows, lows, highs)
    requires Block(temp, 0, n, lows, highs) == Rows(lh, hh, highs, lows, highs)
    requires forall x :: 0 <= x < n ==>
               Holds(buffer, base, n, x,
                     Synthesis(LowHalf(temp, n, lows, x), HighHalf(temp, n, lows, highs, x)))
    ensures Block(buffer, base, n, 0, n) == Inverse(ll, hl, lh, hh, lows, highs)
  {
    hide Synthesis, Rows, At;
    var m, p := Block(buffer, base, n, 0, n), Inverse(ll, hl, lh, hh, lows, highs);
    forall y, x | 0 <= y < n && 0 <= x < n
      ensures m[y][x] == p[y][x]
    {
      AtInside(base, n, n, y, x);
      AtCol(base, n, y, x);
      HeldAt(buffer, base, n, x, Synthesis(LowHalf(temp, n, lows, x), HighHalf(temp, n, lows, highs, x)), y);
    }
    SameMatrix(m, p, n, n);
  }

  lemma LowRowsKept(a: seq<I16>, b: seq<I16>, n: nat, rows: nat)
    requires forall k :: 0 <= k < rows ==> RowOf(a, 0, n, k) == RowOf(b, 0, n, k)
    ensures Block(a, 0, n, 0, rows) == Block(b, 0, n, 0, rows)
  {
    hide RowOf;
    forall k | 0 <= k < rows
      ensures Block(a, 0, n, 0, rows)[k] == Block(b, 0, n, 0, rows)[k]
    {
      assert RowOf(a, 0, n, 0 + k) == RowOf(b, 0, n, k);
    }
  }

  /** One level: HL, LH, HH and LL behind one another are replaced by the block they stand for. */
  method IdwtLevel(buffer: array<I16>, base: nat, lhOff: nat, hhOff: nat, llOff: nat, temp: array<I16>, lows: nat, highs: nat)
    requires buffer != temp && Counts(lows, highs)
    requires At(base, highs, lows, 0) <= buffer.Length && At(lhOff, lows, highs, 0) <= buffer.Length
    requires At(hhOff, highs, highs, 0) <= buffer.Length && At(llOff, lows, lows, 0) <= buffer.Length
    requires At(0, lows + highs, lows + highs, 0) <= temp.Length
    requires At(base, lows + highs, lows + highs, 0) <= buffer.Length
    modifies buffer, temp
    ensures Block(buffer[..], base, lows + highs, 0, lows + highs)
         == Inverse(Block(old(buffer[..]), llOff, lows, 0, lows), Block(old(buffer[..]), base, highs, 0, lows),
                    Block(old(buffer[..]), lhOff, lows, 0, highs), Block(old(buffer[..]), hhOff, highs, 0, highs), lows, highs)
    ensures base <= At(base, lows + highs, lows + highs, 0)
    ensures buffer[..base] == old(buffer[..base])
  {
    hide At, Block, Rows, Inverse, LowHalf, HighHalf, Holds, Synthesis, RowOf;
    var n := lows + highs;
    ghost var b := buffer[..];
    AtInside(0, n, n, lows, 0);
    IdwtX(buffer, llOff, base, temp, n, 0, lows, highs, lows);
    ghost var t := temp[..];
    IdwtX(buffer, lhOff, hhOff, temp, n, lows, lows, highs, highs);
    LowRowsKept(temp[..], t, n, lows);
    IdwtY(temp, buffer, base, n, lows, highs);
    PictureFromColumns(buffer[..], temp[..], base, n, lows, highs, Block(b, llOff, lows, 0, lows), Block(b, base, highs, 0, lows),
                       Block(b, lhOff, lows, 0, highs), Block(b, hhOff, highs, 0, highs));
  }

  /** The ten subbands of the extrapolating layout. */
  function SubbandsOf(buffer: seq<I16>): (s: Subbands)
    ensures Shaped(s)
  {
    Subbands(
      Block(buffer, 0, 31, 0, 33), Block(buffer, 1023, 33, 0, 31), Block(buffer, 2046, 31, 0, 31),
      Block(buffer, 3007, 16, 0, 17), Block(buffer, 3279, 17, 0, 16), Block(buffer, 3551, 16, 0, 16),
      Block(buffer, 3807, 8, 0, 9), Block(buffer, 3879, 9, 0, 8), Block(buffer, 3951, 8, 0, 8), Block(buffer, 4015, 9, 0, 9))
  }

  /** Where the LH, HH and LL subbands of a level begin, behind its HL subband. */
  function LhBase(level: nat): nat {
    if level == 1 then 1023 else if level == 2 then 3279 else 3879
  }

  function HhBase(level: nat): nat {
    if level == 1 then 2046 else if level == 2 then 3551 else 3951
  }

  function LlBase(level: nat): nat {
    if level == 1 then 3007 else if level == 2 then 3807 else 4015
  }

  /** The client computes them from the counts. */
  lemma BandBases(level: nat)
    requires 1 <= level <= 3
    ensures var l, h := LowCount(level), HighCount(level);
            && LhBase(level) == LevelBase(level) + h * l && HhBase(level) == LhBase(level) + l * h
            && LlBase(level) == HhBase(level) + h * h
  {
    LevelSizes();
    hide LowCount, HighCount;
  }

  /** The client's offsets of a level's subbands, and its count arguments. */
  method IdwtBlockExtrapolate(buffer: array<I16>, base: nat, temp: array<I16>, level: nat)
    requires buffer != temp && buffer.Length == temp.Length == 4096
    requires 1 <= level <= 3 && base == LevelBase(level)
    modifies buffer, temp
    ensures var b := old(buffer[..]);
            var l, h := LowCount(level), HighCount(level);
            Counts(l, h) &&
            Block(buffer[..], base, l + h, 0, l + h)
            == Inverse(Block(b, LlBase(level), l, 0, l), Block(b, base, h, 0, l),
                       Block(b, LhBase(level), l, 0, h), Block(b, HhBase(level), h, 0, h), l, h)
    ensures buffer[..base] == old(buffer[..base])
  {
    hide At, Block, Inverse;
    var l, h := LowCount(level), HighCount(level);
    LevelsNest(level);
    BandBases(level);
    var lhOff := base + h * l;
    var hhOff := lhOff + l * h;
    var llOff := hhOff + h * h;
    AtIs(base, h, l, 0);
    AtIs(lhOff, l, h, 0);
    AtIs(hhOff, h, h, 0);
    AtIs(llOff, l, l, 0);
    AtIs(0, l + h, l + h, 0);
    AtIs(base, l + h, l + h, 0);
    IdwtLevel(buffer, base, lhOff, hhOff, llOff, temp, l, h);
  }

  lemma LevelSizes()
    ensures LowCount(3) == 9 && HighCount(3) == 8 && LowCount(2) == 17 && HighCount(2) == 16
    ensures LowCount(1) == 33 && HighCount(1) == 31
  {
    assert Shr(64, 1) == 32 && Shr(64, 2) == 16 && Shr(64, 3) == 8 && Shr(66, 2) == 16 && Shr(68, 3) == 8;
    assert Shl(1, 1) == 2 && Shl(1, 2) == 4;
  }

  /** What a level writes leaves the high subbands of the finer levels alone. */
  lemma FinerLevelsKept(a: seq<I16>, b: seq<I16>, lo: nat)
    requires |a| == |b| == 4096 && lo in {3007, 3807} && a[..lo] == b[..lo]
    ensures var s, t := SubbandsOf(a), SubbandsOf(b);
            && s.hl1 == t.hl1 && s.lh1 == t.lh1 && s.hh1 == t.hh1
            && (lo == 3807 ==> s.hl2 == t.hl2 && s.lh2 == t.lh2 && s.hh2 == t.hh2)
  {
    hide At, Block;
    AtIs(0, 31, 33, 0);
    AtIs(1023, 33, 31, 0);
    AtIs(2046, 31, 31, 0);
    BlockKept(a, b, 0, 31, 0, 33, lo);
    BlockKept(a, b, 1023, 33, 0, 31, lo);
    BlockKept(a, b, 2046, 31, 0, 31, lo);
    if lo == 3807 {
      AtIs(3007, 16, 17, 0);
      AtIs(3279, 17, 16, 0);
      AtIs(3551, 16, 16, 0);
      BlockKept(a, b, 3007, 16, 0, 17, lo);
      BlockKept(a, b, 3279, 17, 0, 16, lo);
      BlockKept(a, b, 3551, 16, 0, 16, lo);
    }
  }

  /** The inverse transform of a whole tile component, coarsest level first. */
  method Idwt3LevelExtrapolate(buffer: array<I16>)
    requires buffer.Length == 4096
    modifies buffer
    ensures Block(buffer[..], 0, 64, 0, 64) == Picture(SubbandsOf(old(buffer[..])))
  {
    hide At, Block, Inverse, LowCount, HighCount;
    LevelSizes();
    ghost var b0 := buffer[..];
    var temp := new I16[4096](i => 0);
    IdwtBlockExtrapolate(buffer, 3807, temp, 3);
    ghost var b1 := buffer[..];
    FinerLevelsKept(b1, b0, 3807);
    IdwtBlockExtrapolate(buffer, 3007, temp, 2);
    ghost var b2 := buffer[..];
    FinerLevelsKept(b2, b1, 3007);
    IdwtBlockExtrapolate(buffer, 0, temp, 1);
  }
}
