/** `idwt_block` and `idwt_3level`: the rolling passes in place, proved against Wavelet. */
module WaveletDecoder {
  import opened Machine
  import opened Matrices
  import opened Blocks
  import opened Grid
  import opened Wavelet

  // ---------- The horizontal pass ----------

  /** One line from a low and a high band that lie contiguously in `src`. */
  method SynthesizeRow(src: array<I16>, low: nat, high: nat, dst: array<I16>, at: nat, w: nat)
    requires src != dst && w >= 1
    requires low + w <= src.Length && high + w <= src.Length && at + 2 * w <= dst.Length
    modifies dst
    ensures dst[at..at + 2 * w] == Synthesis(src[low..low + w], src[high..high + w])
    ensures dst[..at] == old(dst[..at]) && dst[at + 2 * w..] == old(dst[at + 2 * w..])
  {
    hide Wrap16;
    ghost var l, h := src[low..low + w], src[high..high + w];
    dst[at] := Wrap16(src[low] as int - (src[high] as int * 2 + 1) / 2);
    ghost var d := dst[at..at + 2 * w];
    for n := 1 to w
      invariant dst[at..at + 2 * w] == d && |d| == 2 * w
      invariant dst[..at] == old(dst[..at]) && dst[at + 2 * w..] == old(dst[at + 2 * w..])
      invariant forall i :: 0 <= i < 2 * n && i % 2 == 0 ==> d[i] == Even(l, h, i / 2)
    {
      dst[at + 2 * n] := Wrap16(src[low + n] as int - (src[high + n - 1] as int + src[high + n] as int + 1) / 2);
      d := d[2 * n := Even(l, h, n)];
    }
    OddSamples(src, low, high, dst, at, w, d);
  }

  /** All even samples are in place, and the odd ones below `2 * n`. */
  ghost predicate OddsSoFar(d: Line, low: Line, high: Line, n: nat) {
    && |low| == |high| && |d| == 2 * |low| && n <= |low|
    && (forall i :: 0 <= i < |d| && i % 2 == 0 ==> d[i] == Even(low, high, i / 2))
    && (forall i :: 0 <= i < 2 * n && i % 2 == 1 ==> d[i] == Wrap16(OddExact(low, high, i / 2)))
  }

  lemma OddStep(d: Line, low: Line, high: Line, n: nat)
    requires OddsSoFar(d, low, high, n) && n < |low|
    ensures d[2 * n] == Even(low, high, n)
    ensures n + 1 < |low| ==> d[2 * n + 2] == Even(low, high, n + 1)
    ensures OddsSoFar(d[2 * n + 1 := Wrap16(OddExact(low, high, n))], low, high, n + 1)
  {
    hide Even, OddExact, Wrap16;
  }

  lemma OddsAll(d: Line, low: Line, high: Line)
    requires OddsSoFar(d, low, high, |low|)
    ensures d == Synthesis(low, high)
  {
    hide Even, OddExact, Wrap16;
  }

  /** The odd samples, between even ones already in place. */
  method OddSamples(src: array<I16>, low: nat, high: nat, dst: array<I16>, at: nat, w: nat, ghost evens: Line)
    requires src != dst && w >= 1
    requires low + w <= src.Length && high + w <= src.Length && at + 2 * w <= dst.Length
    requires dst[at..at + 2 * w] == evens && OddsSoFar(evens, src[low..low + w], src[high..high + w], 0)
    modifies dst
    ensures dst[at..at + 2 * w] == Synthesis(src[low..low + w], src[high..high + w])
    ensures dst[..at] == old(dst[..at]) && dst[at + 2 * w..] == old(dst[at + 2 * w..])
  {
    hide Wrap16, Even, OddExact, OddsSoFar, Synthesis;
    ghost var l, h := src[low..low + w], src[high..high + w];
    ghost var d: Line := evens;
    for n := 0 to w - 1
      invariant dst[at..at + 2 * w] == d && |d| == 2 * w && OddsSoFar(d, l, h, n)
      invariant dst[..at] == old(dst[..at]) && dst[at + 2 * w..] == old(dst[at + 2 * w..])
    {
      OddStep(d, l, h, n);
      OddIs(l, h, n);
      assert dst[at + 2 * n] == d[2 * n] && dst[at + 2 * n + 2] == d[2 * n + 2];
      dst[at + 2 * n + 1] := Wrap16(2 * src[high + n] as int + (dst[at + 2 * n] as int + dst[at + 2 * n + 2] as int) / 2);
      d := d[2 * n + 1 := Wrap16(OddExact(l, h, n))];
    }
    OddStep(d, l, h, w - 1);
    OddIs(l, h, w - 1);
    assert dst[at + 2 * w - 2] == d[2 * w - 2];
    dst[at + 2 * w - 1] := Wrap16(2 * src[high + w - 1] as int + dst[at + 2 * w - 2] as int);
    d := d[2 * w - 1 := Wrap16(OddExact(l, h, w - 1))];
    OddsAll(d, l, h);
  }

  /** Rebuilds row `to` of the `2 * w` wide scratch block from two rows of the buffer. */
  method SynthesizeInto(buffer: array<I16>, base: nat, w: nat, low: nat, high: nat, temp: array<I16>, to: nat)
    requires buffer != temp && w >= 1 && low < 4 * w && high < 4 * w && to < 2 * w
    requires At(base, w, 4 * w, 0) <= buffer.Length && At(0, 2 * w, 2 * w, 0) <= temp.Length
    modifies temp
    ensures RowOf(temp[..], 0, 2 * w, to)
         == Synthesis(RowOf(buffer[..], base, w, low), RowOf(buffer[..], base, w, high))
    ensures forall k :: 0 <= k < 2 * w && k != to ==> RowOf(temp[..], 0, 2 * w, k) == RowOf(old(temp[..]), 0, 2 * w, k)
  {
    hide Synthesis;
    AtInside(base, w, 4 * w, low, 0);
    AtInside(base, w, 4 * w, high, 0);
    AtInside(0, 2 * w, 2 * w, to, 0);
    var at := At(0, 2 * w, to, 0);
    ghost var before := temp[..];
    SynthesizeRow(buffer, At(base, w, low, 0), At(base, w, high, 0), temp, at, w);
    assert temp[..][..at] == before[..at] && temp[..][at + 2 * w..] == before[at + 2 * w..];
    OtherRowsKept(temp[..], before, 0, 2 * w, to);
  }

  /**
   The subbands of one level: four `w` by `w` squares, one below the other, in the order HL,
   LH, HH, LL.
   */
  function Band(buffer: seq<I16>, base: nat, w: nat, band: nat): (m: Matrix)
    ensures Square(m, w)
  {
    Block(buffer, base, w, band * w, w)
  }

  /** LL + HL -> L and LH + HH -> H, one output row of each per input row. */
  method HorizontalPass(buffer: array<I16>, base: nat, temp: array<I16>, w: nat)
    requires buffer != temp && w >= 1
    requires At(base, w, 4 * w, 0) <= buffer.Length && At(0, 2 * w, 2 * w, 0) <= temp.Length
    modifies temp
    ensures Block(temp[..], 0, 2 * w, 0, w) == Rows(Band(buffer[..], base, w, 3), Band(buffer[..], base, w, 0), w)
    ensures Block(temp[..], 0, 2 * w, w, w) == Rows(Band(buffer[..], base, w, 1), Band(buffer[..], base, w, 2), w)
  {
    ghost var b: seq<I16> := buffer[..];
    HalfRowsNone(temp[..], b, base, w, 0, 3 * w, 0);
    HalfRowsNone(temp[..], b, base, w, w, w, 2 * w);
    hide *;
    for r := 0 to w
      invariant buffer[..] == b
      invariant HalfRows(temp[..], b, base, w, 0, 3 * w, 0, r)
      invariant HalfRows(temp[..], b, base, w, w, w, 2 * w, r)
    {
      SynthesizeRowPair(buffer, base, temp, w, r);
    }
    HalfRowsDone(temp[..], b, base, w, 0, 3 * w, 0);
    HalfRowsDone(temp[..], b, base, w, w, w, 2 * w);
    BandIs(b, base, w);
  }

  lemma BandIs(b: seq<I16>, base: nat, w: nat)
    ensures Band(b, base, w, 0) == Block(b, base, w, 0, w) && Band(b, base, w, 1) == Block(b, base, w, w, w)
    ensures Band(b, base, w, 2) == Block(b, base, w, 2 * w, w) && Band(b, base, w, 3) == Block(b, base, w, 3 * w, w)
  {
  }

  /** One row of each half of the scratch block. */
  method SynthesizeRowPair(buffer: array<I16>, base: nat, temp: array<I16>, w: nat, r: nat)
    requires buffer != temp && r < w
    requires At(base, w, 4 * w, 0) <= buffer.Length && At(0, 2 * w, 2 * w, 0) <= temp.Length
    requires HalfRows(temp[..], buffer[..], base, w, 0, 3 * w, 0, r)
    requires HalfRows(temp[..], buffer[..], base, w, w, w, 2 * w, r)
    modifies temp
    ensures HalfRows(temp[..], buffer[..], base, w, 0, 3 * w, 0, r + 1)
    ensures HalfRows(temp[..], buffer[..], base, w, w, w, 2 * w, r + 1)
  {
    hide *;
    ghost var b: seq<I16> := buffer[..];
    ghost var before: seq<I16> := temp[..];
    SynthesizeInto(buffer, base, w, 3 * w + r, r, temp, r);
    ghost var between: seq<I16> := temp[..];
    HalfRowsStep(before, between, b, base, w, 0, 3 * w, 0, r);
    HalfRowsKept(before, between, b, base, w, w, w, 2 * w, r, r);
    SynthesizeInto(buffer, base, w, w + r, 2 * w + r, temp, w + r);
    HalfRowsStep(between, temp[..], b, base, w, w, w, 2 * w, r);
    HalfRowsKept(between, temp[..], b, base, w, 0, 3 * w, 0, r + 1, w + r);
  }

  /** The first `n` rows from row `to` on are synthesized from the rows at `low` and `high`. */
  ghost predicate HalfRows(temp: seq<I16>, buffer: seq<I16>, base: nat, w: nat, to: nat, low: nat, high: nat, n: nat) {
    forall k: nat :: to <= k < to + n ==>
      RowOf(temp, 0, 2 * w, k) == Synthesis(RowOf(buffer, base, w, low + (k - to)), RowOf(buffer, base, w, high + (k - to)))
  }

  lemma HalfRowsNone(temp: seq<I16>, buffer: seq<I16>, base: nat, w: nat, to: nat, low: nat, high: nat)
    ensures HalfRows(temp, buffer, base, w, to, low, high, 0)
  {
  }

  lemma HalfRowsStep(a: seq<I16>, b: seq<I16>, buffer: seq<I16>, base: nat, w: nat, to: nat, low: nat, high: nat, n: nat)
    requires HalfRows(a, buffer, base, w, to, low, high, n)
    requires to + n < 2 * w && forall k :: 0 <= k < 2 * w && k != to + n ==> RowOf(b, 0, 2 * w, k) == RowOf(a, 0, 2 * w, k)
    requires RowOf(b, 0, 2 * w, to + n) == Synthesis(RowOf(buffer, base, w, low + n), RowOf(buffer, base, w, high + n))
    ensures HalfRows(b, buffer, base, w, to, low, high, n + 1)
  {
    hide Synthesis, RowOf;
  }

  lemma HalfRowsKept(a: seq<I16>, b: seq<I16>, buffer: seq<I16>, base: nat, w: nat, to: nat, low: nat, high: nat, n: nat, row: nat)
    requires HalfRows(a, buffer, base, w, to, low, high, n) && (row < to || to + n <= row) && to + n <= 2 * w
    requires forall k :: 0 <= k < 2 * w && k != row ==> RowOf(b, 0, 2 * w, k) == RowOf(a, 0, 2 * w, k)
    ensures HalfRows(b, buffer, base, w, to, low, high, n)
  {
    hide Synthesis, RowOf;
  }

  lemma HalfRowsDone(temp: seq<I16>, buffer: seq<I16>, base: nat, w: nat, to: nat, low: nat, high: nat)
    requires w >= 1 && HalfRows(temp, buffer, base, w, to, low, high, w)
    ensures Block(temp, 0, 2 * w, to, w) == Rows(Block(buffer, base, w, low, w), Block(buffer, base, w, high, w), w)
  {
    hide Synthesis, RowOf;
    var a, b := Block(temp, 0, 2 * w, to, w), Rows(Block(buffer, base, w, low, w), Block(buffer, base, w, high, w), w);
    forall r | 0 <= r < w
      ensures a[r] == b[r]
    {
      assert a[r] == RowOf(temp, 0, 2 * w, to + r);
    }
  }

  // ---------- The vertical pass ----------

  /** The scratch cell that holds row `r` of the low or the high half in column `x`. */
  function Half(temp: seq<I16>, w: nat, high: bool, x: nat): (l: Line)
    requires x < 2 * w
    ensures |l| == w
  {
    Column(Block(temp, 0, 2 * w, if high then w else 0, w), x)
  }

  lemma HalfAt(temp: seq<I16>, w: nat, high: bool, x: nat, r: nat)
    requires x < 2 * w && r < w && At(0, 2 * w, 2 * w, 0) <= |temp|
    ensures var row := if high then w + r else r;
            At(0, 2 * w, row, x) < |temp| && Half(temp, w, high, x)[r] == temp[At(0, 2 * w, row, x)]
  {
    hide At;
    AtInside(0, 2 * w, 2 * w, w, 0);
    ColumnAt(temp, 2 * w, if high then w else 0, w, x, r);
  }

  /** The cells the rolling pass has in hand when it computes sample pair `n`. */
  lemma InHand(temp: seq<I16>, w: nat, x: nat, base: nat, n: nat)
    requires x < 2 * w && 1 <= n < w && At(0, 2 * w, 2 * w, 0) <= |temp|
    ensures At(0, 2 * w, n, x) == At(0, 2 * w, n - 1, x) + 2 * w < |temp|
    ensures temp[At(0, 2 * w, n, x)] == Half(temp, w, false, x)[n]
    ensures At(0, 2 * w, w + n, x) == At(0, 2 * w, w + n - 1, x) + 2 * w < |temp|
    ensures temp[At(0, 2 * w, w + n, x)] == Half(temp, w, true, x)[n]
    ensures temp[At(0, 2 * w, w + n - 1, x)] == Half(temp, w, true, x)[n - 1]
    ensures At(base, 2 * w, 2 * n - 1, x) == At(base, 2 * w, 2 * n - 2, x) + 2 * w
    ensures At(base, 2 * w, 2 * n, x) == At(base, 2 * w, 2 * n - 2, x) + 2 * (2 * w)
  {
    hide Half, At;
    HalfAt(temp, w, false, x, n);
    HalfAt(temp, w, true, x, n);
    HalfAt(temp, w, true, x, n - 1);
    AtCol(0, 2 * w, n - 1, x);
    AtCol(0, 2 * w, w + n - 1, x);
    AtCol(base, 2 * w, 2 * n - 2, x);
    AtCol(base, 2 * w, 2 * n - 1, x);
  }

  /** The column's samples so far: even ones below `2 * n`, odd ones below `2 * n - 2`. */
  ghost predicate Rolling(d: Line, low: Line, high: Line, n: nat) {
    && |low| == |high| && |d| == 2 * |low| && n <= |low|
    && (forall i :: 0 <= i < 2 * n && i % 2 == 0 ==> d[i] == Even(low, high, i / 2))
    && (forall i :: 0 <= i < 2 * n - 2 && i % 2 == 1 ==> d[i] == Wrap16(OddExact(low, high, i / 2)))
  }

  lemma RollingStep(d: Line, low: Line, high: Line, n: nat)
    requires Rolling(d, low, high, n) && 1 <= n < |low|
    ensures d[2 * n - 2] == Even(low, high, n - 1)
    ensures Rolling(d[2 * n := Even(low, high, n)][2 * n - 1 := Wrap16(OddExact(low, high, n - 1))], low, high, n + 1)
  {
    hide Even, OddExact, Wrap16;
  }

  lemma RollingEnd(d: Line, low: Line, high: Line)
    requires Rolling(d, low, high, |low|) && |low| >= 1
    ensures d[2 * |low| - 2] == Even(low, high, |low| - 1)
    ensures d[2 * |low| - 1 := Wrap16(OddExact(low, high, |low| - 1))] == Synthesis(low, high)
  {
    hide Even, OddExact, Wrap16;
  }

  /** Rebuilds column `x` of the picture; the other cells of the buffer stay as they are. */
  method SynthesizeColumn(temp: array<I16>, w: nat, x: nat, buffer: array<I16>, base: nat)
    requires buffer != temp && w >= 1 && x < 2 * w
    requires At(0, 2 * w, 2 * w, 0) <= temp.Length && At(base, 2 * w, 2 * w, 0) <= buffer.Length
    modifies buffer
    ensures Holds(buffer[..], base, 2 * w, x, Synthesis(Half(temp[..], w, false, x), Half(temp[..], w, true, x)))
    ensures OnlyColumn(buffer[..], old(buffer[..]), base, 2 * w, x)
  {
    hide Half, Wrap16, At, Even, OddExact, Synthesis, Holds, OnlyColumn, Rolling;
    ghost var low, high, before := Half(temp[..], w, false, x), Half(temp[..], w, true, x), buffer[..];
    ghost var d: Line := ColumnCells(buffer[..], base, 2 * w, x);
    StartColumn(buffer[..], base, 2 * w, x);
    var l, h, dst := x, At(0, 2 * w, w, x), base + x;
    AtZero(0, 2 * w, x);
    AtZero(base, 2 * w, x);
    HalfAt(temp[..], w, false, x, 0);
    HalfAt(temp[..], w, true, x, 0);
    FirstEven(low, high, d);
    StoreSample(buffer, base, 2 * w, x, 0, dst, Wrap16(temp[l] as int - (temp[h] as int * 2 + 1) / 2), d, before);
    d := d[0 := Even(low, high, 0)];
    for n := 1 to w
      invariant l == At(0, 2 * w, n - 1, x) && h == At(0, 2 * w, w + n - 1, x) && dst == At(base, 2 * w, 2 * n - 2, x)
      invariant low == Half(temp[..], w, false, x) && high == Half(temp[..], w, true, x)
      invariant Rolling(d, low, high, n) && |d| == 2 * w
      invariant Holds(buffer[..], base, 2 * w, x, d) && OnlyColumn(buffer[..], before, base, 2 * w, x)
    {
      InHand(temp[..], w, x, base, n);
      l, h := l + 2 * w, h + 2 * w;
      RollingStep(d, low, high, n);
      EvenIs(low, high, n);
      StoreSample(buffer, base, 2 * w, x, 2 * n, dst + 2 * (2 * w),
        Wrap16(temp[l] as int - (temp[h - 2 * w] as int + temp[h] as int + 1) / 2), d, before);
      d := d[2 * n := Even(low, high, n)];
      HeldAt(buffer[..], base, 2 * w, x, d, 2 * n - 2);
      HeldAt(buffer[..], base, 2 * w, x, d, 2 * n);
      OddIs(low, high, n - 1);
      StoreSample(buffer, base, 2 * w, x, 2 * n - 1, dst + 2 * w,
        Wrap16(2 * temp[h - 2 * w] as int + (buffer[dst] as int + buffer[dst + 2 * (2 * w)] as int) / 2), d, before);
      d := d[2 * n - 1 := Wrap16(OddExact(low, high, n - 1))];
      dst := dst + 2 * (2 * w);
    }
    HalfAt(temp[..], w, true, x, w - 1);
    RollingEnd(d, low, high);
    HeldAt(buffer[..], base, 2 * w, x, d, 2 * w - 2);
    OddIs(low, high, w - 1);
    AtCol(base, 2 * w, 2 * w - 2, x);
    StoreSample(buffer, base, 2 * w, x, 2 * w - 1, dst + 2 * w,
      Wrap16(2 * temp[h] as int + (buffer[dst] as int * 2) / 2), d, before);
  }

  lemma FirstEven(low: Line, high: Line, d: Line)
    requires |low| == |high| >= 1 && |d| == 2 * |low|
    ensures Even(low, high, 0) == Wrap16(low[0] as int - (high[0] as int * 2 + 1) / 2)
    ensures Rolling(d[0 := Even(low, high, 0)], low, high, 1)
  {
    hide Wrap16;
  }

  lemma EvenIs(low: Line, high: Line, n: nat)
    requires |low| == |high| && 1 <= n < |low|
    ensures Even(low, high, n) == Wrap16(low[n] as int - (high[n - 1] as int + high[n] as int + 1) / 2)
  {
    hide Wrap16;
  }

  lemma OddIs(low: Line, high: Line, n: nat)
    requires |low| == |high| && n < |low|
    ensures n + 1 < |low| ==>
              OddExact(low, high, n) == 2 * high[n] as int + (Even(low, high, n) as int + Even(low, high, n + 1) as int) / 2
    ensures n + 1 == |low| ==> OddExact(low, high, n) == 2 * high[n] as int + (Even(low, high, n) as int * 2) / 2
  {
    hide Even;
  }

  /** L + H -> LL, written back over the subbands. */
  method VerticalPass(temp: array<I16>, w: nat, buffer: array<I16>, base: nat)
    requires buffer != temp && w >= 1
    requires At(0, 2 * w, 2 * w, 0) <= temp.Length && At(base, 2 * w, 2 * w, 0) <= buffer.Length
    modifies buffer
    ensures forall x :: 0 <= x < 2 * w ==>
              Holds(buffer[..], base, 2 * w, x, Synthesis(Half(temp[..], w, false, x), Half(temp[..], w, true, x)))
    ensures base <= At(base, 2 * w, 2 * w, 0)
    ensures buffer[..base] == old(buffer[..base])
    ensures buffer[At(base, 2 * w, 2 * w, 0)..] == old(buffer[At(base, 2 * w, 2 * w, 0)..])
  {
    hide Half, At, Synthesis, Holds, OnlyColumn;
    StartColumn(buffer[..], base, 2 * w, 0);
    KeptOutside(buffer[..], buffer[..], base, 2 * w, 0);
    for x := 0 to 2 * w
      invariant forall c :: 0 <= c < x ==>
                  Holds(buffer[..], base, 2 * w, c, Synthesis(Half(temp[..], w, false, c), Half(temp[..], w, true, c)))
      invariant buffer[..base] == old(buffer[..base])
      invariant buffer[At(base, 2 * w, 2 * w, 0)..] == old(buffer[At(base, 2 * w, 2 * w, 0)..])
    {
      ghost var before := buffer[..];
      SynthesizeColumn(temp, w, x, buffer, base);
      KeptOutside(buffer[..], before, base, 2 * w, x);
      forall c | 0 <= c < x
        ensures Holds(buffer[..], base, 2 * w, c, Synthesis(Half(temp[..], w, false, c), Half(temp[..], w, true, c)))
      {
        StillHolds(buffer[..], before, base, 2 * w, x, c, Synthesis(Half(temp[..], w, false, c), Half(temp[..], w, true, c)));
      }
    }
  }

  // ---------- One level, and all three ----------

  lemma SameEnd(base: nat, w: nat)
    ensures At(base, w, 4 * w, 0) == At(base, 2 * w, 2 * w, 0)
  {
    AtIs(base, w, 4 * w, 0);
    AtIs(base, 2 * w, 2 * w, 0);
    assert (4 * w) * w == (2 * w) * (2 * w);
  }

  lemma PictureFromColumns(buffer: seq<I16>, temp: seq<I16>, base: nat, w: nat, ll: Matrix, hl: Matrix, lh: Matrix, hh: Matrix)
    requires Square(ll, w) && Square(hl, w) && Square(lh, w) && Square(hh, w)
    requires At(base, 2 * w, 2 * w, 0) <= |buffer|
    requires Block(temp, 0, 2 * w, 0, w) == Rows(ll, hl, w) && Block(temp, 0, 2 * w, w, w) == Rows(lh, hh, w)
    requires forall x :: 0 <= x < 2 * w ==>
               Holds(buffer, base, 2 * w, x, Synthesis(Half(temp, w, false, x), Half(temp, w, true, x)))
    ensures Block(buffer, base, 2 * w, 0, 2 * w) == Inverse(ll, hl, lh, hh, w)
  {
    hide Synthesis, Rows, At;
    var m, p := Block(buffer, base, 2 * w, 0, 2 * w), Inverse(ll, hl, lh, hh, w);
    forall y, x | 0 <= y < 2 * w && 0 <= x < 2 * w
      ensures m[y][x] == p[y][x]
    {
      AtInside(base, 2 * w, 2 * w, y, x);
      AtCol(base, 2 * w, y, x);
      HeldAt(buffer, base, 2 * w, x, Synthesis(Half(temp, w, false, x), Half(temp, w, true, x)), y);
    }
    SameMatrix(m, p, 2 * w, 2 * w);
  }

  /** One level: the four subbands at `base` are replaced by the picture they stand for. */
  method IdwtBlock(buffer: array<I16>, base: nat, temp: array<I16>, w: nat)
    requires buffer != temp && w >= 1
    requires At(base, w, 4 * w, 0) <= buffer.Length && At(0, 2 * w, 2 * w, 0) <= temp.Length
    modifies buffer, temp
    ensures Block(buffer[..], base, 2 * w, 0, 2 * w)
         == Inverse(Band(old(buffer[..]), base, w, 3), Band(old(buffer[..]), base, w, 0),
                    Band(old(buffer[..]), base, w, 1), Band(old(buffer[..]), base, w, 2), w)
    ensures base <= At(base, w, 4 * w, 0)
    ensures buffer[..base] == old(buffer[..base])
    ensures buffer[At(base, w, 4 * w, 0)..] == old(buffer[At(base, w, 4 * w, 0)..])
  {
    hide At, Block, Rows, Inverse, Band, Half, Holds, Synthesis;
    ghost var b := buffer[..];
    SameEnd(base, w);
    HorizontalPass(buffer, base, temp, w);
    VerticalPass(temp, w, buffer, base);
    PictureFromColumns(buffer[..], temp[..], base, w, Band(b, base, w, 3), Band(b, base, w, 0), Band(b, base, w, 1), Band(b, base, w, 2));
  }

  /** The ten subbands of the plain layout. */
  function SubbandsOf(buffer: seq<I16>): (s: Subbands)
    ensures Shaped(s)
  {
    Subbands(
      Band(buffer, 0, 32, 0), Band(buffer, 0, 32, 1), Band(buffer, 0, 32, 2),
      Band(buffer, 3072, 16, 0), Band(buffer, 3072, 16, 1), Band(buffer, 3072, 16, 2),
      Band(buffer, 3840, 8, 0), Band(buffer, 3840, 8, 1), Band(buffer, 3840, 8, 2), Band(buffer, 3840, 8, 3))
  }

  /** A level's low subband is the picture that the level below it left there. */
  lemma NestedLow(buffer: seq<I16>, base: nat, w: nat, inner: nat)
    requires inner == At(base, w, 3 * w, 0)
    ensures Band(buffer, base, w, 3) == Block(buffer, inner, w, 0, w)
  {
    hide At;
    forall r | 0 <= r < w
      ensures Band(buffer, base, w, 3)[r] == Block(buffer, inner, w, 0, w)[r]
    {
      AtShift(base, w, 3 * w, r);
      assert RowOf(buffer, base, w, 3 * w + r) == RowOf(buffer, inner, w, r);
      assert Band(buffer, base, w, 3)[r] == RowOf(buffer, base, w, 3 * w + r);
      assert Block(buffer, inner, w, 0, w)[r] == RowOf(buffer, inner, w, 0 + r);
    }
  }

  /** The subbands of a level that lie before a write keep their contents. */
  lemma BandKept(a: seq<I16>, b: seq<I16>, base: nat, w: nat, band: nat, lo: nat)
    requires |a| == |b| && lo <= |a| && a[..lo] == b[..lo]
    requires At(base, w, band * w + w, 0) <= lo
    ensures Band(a, base, w, band) == Band(b, base, w, band)
  {
    BlockKept(a, b, base, w, band * w, w, lo);
  }

  lemma Ends()
    ensures At(3072, 16, 48, 0) == 3840 && At(0, 32, 96, 0) == 3072
    ensures forall k :: 0 <= k < 3 ==> At(3072, 16, k * 16 + 16, 0) <= 3840 && At(0, 32, k * 32 + 32, 0) <= 3072
    ensures At(3840, 8, 32, 0) == At(3072, 16, 64, 0) == At(0, 32, 128, 0) == 4096
    ensures At(0, 16, 16, 0) == 256 && At(0, 32, 32, 0) == 1024 && At(0, 64, 64, 0) == 4096
  {
    hide At;
    forall k | 0 <= k < 3
      ensures At(3072, 16, k * 16 + 16, 0) <= 3840 && At(0, 32, k * 32 + 32, 0) <= 3072
    {
      AtIs(3072, 16, k * 16 + 16, 0);
      AtIs(0, 32, k * 32 + 32, 0);
    }
    AtIs(3072, 16, 48, 0);
    AtIs(0, 32, 96, 0);
    AtIs(3840, 8, 32, 0);
    AtIs(3072, 16, 64, 0);
    AtIs(0, 32, 128, 0);
    AtIs(0, 16, 16, 0);
    AtIs(0, 32, 32, 0);
    AtIs(0, 64, 64, 0);
  }

  /** The inverse transform of a whole tile component, coarsest level first. */
  method Idwt3Level(buffer: array<I16>)
    requires buffer.Length == 4096
    modifies buffer
    ensures Block(buffer[..], 0, 64, 0, 64) == Picture(SubbandsOf(old(buffer[..])))
  {
    hide At, Block, Inverse, Band;
    ghost var b0 := buffer[..];
    var temp := new I16[4096](i => 0);
    Ends();
    IdwtBlock(buffer, 3840, temp, 8);
    ghost var b1 := buffer[..];
    NestedLow(b1, 3072, 16, 3840);
    forall k | 0 <= k < 3
      ensures Band(b1, 3072, 16, k) == Band(b0, 3072, 16, k)
    {
      BandKept(b1, b0, 3072, 16, k, 3840);
    }
    IdwtBlock(buffer, 3072, temp, 16);
    ghost var b2 := buffer[..];
    NestedLow(b2, 0, 32, 3072);
    forall k | 0 <= k < 3
      ensures Band(b2, 0, 32, k) == Band(b0, 0, 32, k)
    {
      BandKept(b1, b0, 0, 32, k, 3072);
      BandKept(b2, b1, 0, 32, k, 3072);
    }
    IdwtBlock(buffer, 0, temp, 32);
  }
}
