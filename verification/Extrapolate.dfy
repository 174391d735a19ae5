/**
 The inverse wavelet transform of the extrapolating layout in closed form. Its bands have one
 or two samples more on the low side, it truncates towards zero, and it saturates.
 */
module Extrapolate {
  import opened Machine
  import opened Matrices

  /** The band sizes `idwt_x` and `idwt_y` are written for. */
  predicate Counts(lows: nat, highs: nat) {
    1 <= highs <= lows <= highs + 2
  }

  function Evens(lows: nat, highs: nat): nat {
    Min(lows, highs + 1)
  }

  // ---------- One line ----------

  function EvenExact(low: Line, high: Line, k: nat): int
    requires Counts(|low|, |high|) && k < Evens(|low|, |high|)
  {
    if k == 0 then low[0] as int - high[0] as int
    else if k < |high| then low[k] as int - HalfTowardsZero(high[k - 1] as int + high[k] as int)
    else if |low| == |high| + 1 then low[k] as int - high[k - 1] as int
    else low[k] as int - HalfTowardsZero(high[k - 1])
  }

  function Even(low: Line, high: Line, k: nat): I16
    requires Counts(|low|, |high|) && k < Evens(|low|, |high|)
  {
    Clamp16(EvenExact(low, high, k))
  }

  function OddExact(low: Line, high: Line, k: nat): int
    requires Counts(|low|, |high|) && 2 * k + 1 < |low| + |high|
  {
    if k == |high| then HalfTowardsZero(Even(low, high, k) as int + low[k + 1] as int)
    else if k + 1 < Evens(|low|, |high|) then
      HalfTowardsZero(Even(low, high, k) as int + Even(low, high, k + 1) as int) + 2 * high[k] as int
    else Even(low, high, k) as int + 2 * high[k] as int
  }

  function Sample(low: Line, high: Line, i: nat): I16
    requires Counts(|low|, |high|) && i < |low| + |high|
  {
    if i % 2 == 0 then Even(low, high, i / 2) else Clamp16(OddExact(low, high, i / 2))
  }

  /** One line rebuilt from all its low and all its high samples. */
  function Synthesis(low: Line, high: Line): (r: Line)
    requires Counts(|low|, |high|)
    ensures |r| == |low| + |high|
  {
    seq(|low| + |high|, i requires 0 <= i < |low| + |high| => Sample(low, high, i))
  }

  lemma SamplesAre(low: Line, high: Line, k: nat)
    requires Counts(|low|, |high|)
    ensures k < Evens(|low|, |high|) ==> Synthesis(low, high)[2 * k] == Even(low, high, k)
    ensures 2 * k + 1 < |low| + |high| ==> Synthesis(low, high)[2 * k + 1] == Clamp16(OddExact(low, high, k))
  {
    hide Even, OddExact, Clamp16;
    assert (2 * k) / 2 == k && (2 * k + 1) / 2 == k && (2 * k) % 2 == 0 && (2 * k + 1) % 2 == 1;
  }

  // ---------- What a sender can and cannot recover ----------

  /** No sample of the line saturates. */
  ghost predicate LineFits(low: Line, high: Line)
    requires Counts(|low|, |high|)
  {
    && (forall k :: 0 <= k < Evens(|low|, |high|) ==> -0x8000 <= EvenExact(low, high, k) < 0x8000)
    && (forall k :: 0 <= k && 2 * k + 1 < |low| + |high| ==> -0x8000 <= OddExact(low, high, k) < 0x8000)
  }

  function HighOf(x: Line, lows: nat, highs: nat, k: nat): int
    requires Counts(lows, highs) && |x| == lows + highs && k < highs
  {
    if k + 1 < Evens(lows, highs) then (x[2 * k + 1] as int - HalfTowardsZero(x[2 * k] as int + x[2 * k + 2] as int)) / 2
    else (x[2 * k + 1] as int - x[2 * k] as int) / 2
  }

  function LowOf(x: Line, lows: nat, highs: nat, k: nat): int
    requires Counts(lows, highs) && |x| == lows + highs && k < Evens(lows, highs)
  {
    if k == 0 then x[0] as int + HighOf(x, lows, highs, 0)
    else if k < highs then x[2 * k] as int + HalfTowardsZero(HighOf(x, lows, highs, k - 1) + HighOf(x, lows, highs, k))
    else if lows == highs + 1 then x[2 * k] as int + HighOf(x, lows, highs, k - 1)
    else x[2 * k] as int + HalfTowardsZero(HighOf(x, lows, highs, k - 1))
  }

  lemma ClampInRange(v: int)
    requires -0x8000 <= v < 0x8000
    ensures Clamp16(v) == v
  {
  }

  lemma ExactSamples(low: Line, high: Line, k: nat)
    requires Counts(|low|, |high|) && LineFits(low, high)
    ensures k < Evens(|low|, |high|) ==> Synthesis(low, high)[2 * k] == Even(low, high, k) == EvenExact(low, high, k)
    ensures 2 * k + 1 < |low| + |high| ==> Synthesis(low, high)[2 * k + 1] == OddExact(low, high, k)
  {
    hide EvenExact, OddExact, Synthesis, Clamp16;
    SamplesAre(low, high, k);
    if k < Evens(|low|, |high|) {
      ClampInRange(EvenExact(low, high, k));
    }
    if 2 * k + 1 < |low| + |high| {
      ClampInRange(OddExact(low, high, k));
    }
  }

  lemma HighRecovered(low: Line, high: Line, k: nat)
    requires Counts(|low|, |high|) && LineFits(low, high) && k < |high|
    ensures HighOf(Synthesis(low, high), |low|, |high|, k) == high[k]
  {
    hide Synthesis, Even, EvenExact, LineFits, HalfTowardsZero;
    ExactSamples(low, high, k);
    if k + 1 < Evens(|low|, |high|) {
      ExactSamples(low, high, k + 1);
      assert 2 * (k + 1) == 2 * k + 2;
    }
  }

  /** Every high sample, and every low sample that an even output stands for, is recovered. */
  lemma LineRecovered(low: Line, high: Line)
    requires Counts(|low|, |high|) && LineFits(low, high)
    ensures forall k :: 0 <= k < |high| ==> HighOf(Synthesis(low, high), |low|, |high|, k) == high[k]
    ensures forall k :: 0 <= k < Evens(|low|, |high|) ==> LowOf(Synthesis(low, high), |low|, |high|, k) == low[k]
  {
    hide Synthesis, Even, OddExact, LineFits, HalfTowardsZero, HighOf;
    forall k | 0 <= k < |high|
      ensures HighOf(Synthesis(low, high), |low|, |high|, k) == high[k]
    {
      HighRecovered(low, high, k);
    }
    forall k | 0 <= k < Evens(|low|, |high|)
      ensures LowOf(Synthesis(low, high), |low|, |high|, k) == low[k]
    {
      ExactSamples(low, high, k);
    }
  }

  /** Equal lines come from equal high samples, and from equal low samples where an even output stands for them. */
  lemma LineDetermines(low: Line, high: Line, low': Line, high': Line)
    requires Counts(|low|, |high|) && |low'| == |low| && |high'| == |high|
    requires LineFits(low, high) && LineFits(low', high') && Synthesis(low, high) == Synthesis(low', high')
    ensures high == high' && low[..Evens(|low|, |high|)] == low'[..Evens(|low|, |high|)]
  {
    hide Synthesis, LineFits, HighOf, LowOf;
    LineRecovered(low, high);
    LineRecovered(low', high');
    forall k | 0 <= k < |high|
      ensures high[k] == high'[k]
    {
      assert HighOf(Synthesis(low, high), |low|, |high|, k) == high[k];
      assert HighOf(Synthesis(low', high'), |low|, |high|, k) == high'[k];
    }
    forall k | 0 <= k < Evens(|low|, |high|)
      ensures low[k] == low'[k]
    {
      assert LowOf(Synthesis(low, high), |low|, |high|, k) == low[k];
      assert LowOf(Synthesis(low', high'), |low|, |high|, k) == low'[k];
    }
  }

  /**
   The same half towards zero: the numbers are equal, or neighbours of which the one further from
   zero is odd, or they are one and minus one.
   */
  predicate SameHalf(a: int, b: int) {
    a == b || (Abs(a - b) == 1 && Max(Abs(a), Abs(b)) % 2 == 1) || (Abs(a) == 1 && a == 0 - b)
  }

  /** The sum of two samples never saturates once it is halved. */
  lemma HalvesAre(a: int, b: int)
    requires -0x1_0000 <= a < 0xFFFF && -0x1_0000 <= b < 0xFFFF
    ensures Clamp16(HalfTowardsZero(a)) == HalfTowardsZero(a)
    ensures HalfTowardsZero(a) == HalfTowardsZero(b) <==> SameHalf(a, b)
  {
  }

  /**
   The two low samples behind the last high one share their last output. Replacing the last one
   leaves the line the same exactly when its sum with the output before it has the same half.
   */
  lemma LastLowIsShared(low: Line, high: Line, v: I16)
    requires |high| >= 1 && |low| == |high| + 2
    ensures Synthesis(low[|low| - 1 := v], high) == Synthesis(low, high) <==>
            var e := Even(low, high, |high|) as int;
            SameHalf(e + v as int, e + low[|low| - 1] as int)
  {
    hide Synthesis, Clamp16, HalfTowardsZero, SameHalf;
    var n, low' := |high|, low[|low| - 1 := v];
    forall i | 0 <= i < |low| + |high| - 1
      ensures Synthesis(low', high)[i] == Synthesis(low, high)[i]
    {
      SamplesAre(low, high, i / 2);
      SamplesAre(low', high, i / 2);
      assert i == 2 * (i / 2) || i == 2 * (i / 2) + 1;
    }
    SamplesAre(low, high, n);
    SamplesAre(low', high, n);
    var e := Even(low, high, n) as int;
    HalvesAre(e + v as int, e + low[|low| - 1] as int);
    HalvesAre(e + low[|low| - 1] as int, e + v as int);
    assert Synthesis(low', high)[2 * n + 1] == Synthesis(low, high)[2 * n + 1] <==> Synthesis(low', high) == Synthesis(low, high);
  }

  /** The lines agree in everything their outputs can tell. */
  predicate SameLine(low: Line, high: Line, low': Line, high': Line)
    requires Counts(|low|, |high|) && |low'| == |low| && |high'| == |high|
  {
    && high == high' && low[..Evens(|low|, |high|)] == low'[..Evens(|low|, |high|)]
    && (|low| == |high| + 2 ==>
          var e := Even(low, high, |high|) as int;
          SameHalf(e + low[|low| - 1] as int, e + low'[|low| - 1] as int))
  }

  /** Where nothing saturates, two lines are equal exactly when their samples agree in that. */
  lemma LinesAreEqual(low: Line, high: Line, low': Line, high': Line)
    requires Counts(|low|, |high|) && |low'| == |low| && |high'| == |high|
    requires LineFits(low, high) && LineFits(low', high')
    ensures Synthesis(low, high) == Synthesis(low', high') <==> SameLine(low, high, low', high')
  {
    hide Synthesis, LineFits, Even, SameHalf;
    if Synthesis(low, high) == Synthesis(low', high') {
      LineDetermines(low, high, low', high');
    }
    var n := Evens(|low|, |high|);
    if high == high' && low[..n] == low'[..n] {
      forall k | 0 <= k < n
        ensures low[k] == low'[k]
      {
        assert low[..n][k] == low'[..n][k];
      }
      if |low| == |high| + 2 {
        assert low' == low[|low| - 1 := low'[|low| - 1]];
        LastLowIsShared(low, high, low'[|low| - 1]);
        SameHalfSym(Even(low, high, |high|) as int + low[|low| - 1] as int, Even(low, high, |high|) as int + low'[|low| - 1] as int);
      } else {
        assert low == low';
      }
    }
  }

  lemma SameHalfSym(a: int, b: int)
    ensures SameHalf(a, b) <==> SameHalf(b, a)
  {
  }

  // ---------- One level ----------

  function Rows(low: Matrix, high: Matrix, n: nat, lows: nat, highs: nat): (r: Matrix)
    requires Counts(lows, highs) && Rectangle(low, n, lows) && Rectangle(high, n, highs)
    ensures Rectangle(r, n, lows + highs)
  {
    seq(n, r requires 0 <= r < n => Synthesis(low[r], high[r]))
  }

  /** The block rebuilt from its four subbands: rows first, then columns. */
  function Inverse(ll: Matrix, hl: Matrix, lh: Matrix, hh: Matrix, lows: nat, highs: nat): (m: Matrix)
    requires Counts(lows, highs)
    requires Rectangle(ll, lows, lows) && Rectangle(hl, lows, highs)
    requires Rectangle(lh, highs, lows) && Rectangle(hh, highs, highs)
    ensures Square(m, lows + highs)
  {
    var l, h := Rows(ll, hl, lows, lows, highs), Rows(lh, hh, highs, lows, highs);
    seq(lows + highs, y requires 0 <= y < lows + highs =>
      seq(lows + highs, x requires 0 <= x < lows + highs => Synthesis(Column(l, x), Column(h, x))[y]))
  }

  /** No sample of the rows and then of the columns saturates. */
  ghost predicate BlockFits(ll: Matrix, hl: Matrix, lh: Matrix, hh: Matrix, lows: nat, highs: nat) {
    && Counts(lows, highs)
    && Rectangle(ll, lows, lows) && Rectangle(hl, lows, highs) && Rectangle(lh, highs, lows) && Rectangle(hh, highs, highs)
    && (forall r :: 0 <= r < lows ==> LineFits(ll[r], hl[r]))
    && (forall r :: 0 <= r < highs ==> LineFits(lh[r], hh[r]))
    && (forall x :: 0 <= x < lows + highs ==>
          LineFits(Column(Rows(ll, hl, lows, lows, highs), x), Column(Rows(lh, hh, highs, lows, highs), x)))
  }

  lemma ColumnOfInverse(ll: Matrix, hl: Matrix, lh: Matrix, hh: Matrix, lows: nat, highs: nat, x: nat)
    requires BlockFits(ll, hl, lh, hh, lows, highs) && x < lows + highs
    ensures Column(Inverse(ll, hl, lh, hh, lows, highs), x)
         == Synthesis(Column(Rows(ll, hl, lows, lows, highs), x), Column(Rows(lh, hh, highs, lows, highs), x))
  {
    hide Sample, Rows, LineFits;
  }

  /** The rows before the column pass are the same, except the last low one where two low rows are surplus. */
  lemma HalvesDetermined(ll: Matrix, hl: Matrix, lh: Matrix, hh: Matrix,
                         ll': Matrix, hl': Matrix, lh': Matrix, hh': Matrix, lows: nat, highs: nat)
    requires BlockFits(ll, hl, lh, hh, lows, highs) && BlockFits(ll', hl', lh', hh', lows, highs)
    requires Inverse(ll, hl, lh, hh, lows, highs) == Inverse(ll', hl', lh', hh', lows, highs)
    ensures forall r :: 0 <= r < Evens(lows, highs) ==> Synthesis(ll[r], hl[r]) == Synthesis(ll'[r], hl'[r])
    ensures forall r :: 0 <= r < highs ==> Synthesis(lh[r], hh[r]) == Synthesis(lh'[r], hh'[r])
  {
    hide LineFits, Synthesis, Inverse;
    var l, h := Rows(ll, hl, lows, lows, highs), Rows(lh, hh, highs, lows, highs);
    var l', h' := Rows(ll', hl', lows, lows, highs), Rows(lh', hh', highs, lows, highs);
    var n := Evens(lows, highs);
    forall r, x | 0 <= r < n && 0 <= x < lows + highs
      ensures l[r][x] == l'[r][x]
    {
      ColumnOfInverse(ll, hl, lh, hh, lows, highs, x);
      ColumnOfInverse(ll', hl', lh', hh', lows, highs, x);
      LineDetermines(Column(l, x), Column(h, x), Column(l', x), Column(h', x));
      assert Column(l, x)[..n][r] == Column(l', x)[..n][r];
    }
    forall r, x | 0 <= r < highs && 0 <= x < lows + highs
      ensures h[r][x] == h'[r][x]
    {
      ColumnOfInverse(ll, hl, lh, hh, lows, highs, x);
      ColumnOfInverse(ll', hl', lh', hh', lows, highs, x);
      LineDetermines(Column(l, x), Column(h, x), Column(l', x), Column(h', x));
      assert Column(h, x)[r] == Column(h', x)[r];
    }
    forall r | 0 <= r < Evens(lows, highs)
      ensures Synthesis(ll[r], hl[r]) == Synthesis(ll'[r], hl'[r])
    {
      assert l[r] == l'[r];
    }
    forall r | 0 <= r < highs
      ensures Synthesis(lh[r], hh[r]) == Synthesis(lh'[r], hh'[r])
    {
      assert h[r] == h'[r];
    }
  }

  /** The first `n` columns of a row. */
  predicate SameStart(a: Matrix, b: Matrix, rows: nat, n: nat) {
    forall r :: 0 <= r < rows && r < |a| && r < |b| ==> n <= |a[r]| && n <= |b[r]| && a[r][..n] == b[r][..n]
  }

  /**
   Where nothing saturates, equal blocks come from equal subbands: from all of HH, and from the
   others up to the surplus low row and column that only a level with two low samples more
   than high ones has.
   */
  lemma InverseDetermines(ll: Matrix, hl: Matrix, lh: Matrix, hh: Matrix,
                          ll': Matrix, hl': Matrix, lh': Matrix, hh': Matrix, lows: nat, highs: nat)
    requires BlockFits(ll, hl, lh, hh, lows, highs) && BlockFits(ll', hl', lh', hh', lows, highs)
    requires Inverse(ll, hl, lh, hh, lows, highs) == Inverse(ll', hl', lh', hh', lows, highs)
    ensures var n := Evens(lows, highs);
            SameStart(ll, ll', n, n) && SameStart(hl, hl', n, highs) && SameStart(lh, lh', highs, n) && hh == hh'
    ensures lows <= highs + 1 ==> ll == ll' && hl == hl' && lh == lh'
  {
    hide LineFits, Synthesis, Inverse, Rows;
    var n := Evens(lows, highs);
    HalvesDetermined(ll, hl, lh, hh, ll', hl', lh', hh', lows, highs);
    forall r | 0 <= r < n
      ensures ll[r][..n] == ll'[r][..n] && hl[r] == hl'[r]
    {
      LineDetermines(ll[r], hl[r], ll'[r], hl'[r]);
    }
    forall r | 0 <= r < highs
      ensures lh[r][..n] == lh'[r][..n] && hh[r] == hh'[r]
    {
      LineDetermines(lh[r], hh[r], lh'[r], hh'[r]);
    }
    if lows <= highs + 1 {
      AllRows(ll, ll', lows);
      AllRows(lh, lh', lows);
    }
  }

  /** Two levels agree in everything their block can tell. */
  ghost predicate SameLevel(ll: Matrix, hl: Matrix, lh: Matrix, hh: Matrix,
                            ll': Matrix, hl': Matrix, lh': Matrix, hh': Matrix, lows: nat, highs: nat)
    requires BlockFits(ll, hl, lh, hh, lows, highs) && BlockFits(ll', hl', lh', hh', lows, highs)
  {
    var l, h, l' := Rows(ll, hl, lows, lows, highs), Rows(lh, hh, highs, lows, highs), Rows(ll', hl', lows, lows, highs);
    && (forall r :: 0 <= r < highs ==> SameLine(lh[r], hh[r], lh'[r], hh'[r]))
    && (forall r :: 0 <= r < Evens(lows, highs) ==> SameLine(ll[r], hl[r], ll'[r], hl'[r]))
    && (lows == highs + 2 ==>
          forall x :: 0 <= x < lows + highs ==>
            var e := Even(Column(l, x), Column(h, x), highs) as int;
            SameHalf(e + l[lows - 1][x] as int, e + l'[lows - 1][x] as int))
  }

  /** The columns agree in everything their outputs can tell, given that all rows but a surplus one are the same. */
  lemma ColumnsAgree(l: Matrix, h: Matrix, l': Matrix, h': Matrix, lows: nat, highs: nat, x: nat)
    requires Counts(lows, highs) && x < lows + highs
    requires Rectangle(l, lows, lows + highs) && Rectangle(h, highs, lows + highs)
    requires Rectangle(l', lows, lows + highs) && Rectangle(h', highs, lows + highs)
    ensures SameLine(Column(l, x), Column(h, x), Column(l', x), Column(h', x)) <==>
            && (forall r :: 0 <= r < highs ==> h[r][x] == h'[r][x])
            && (forall r :: 0 <= r < Evens(lows, highs) ==> l[r][x] == l'[r][x])
            && (lows == highs + 2 ==>
                  var e := Even(Column(l, x), Column(h, x), highs) as int;
                  SameHalf(e + l[lows - 1][x] as int, e + l'[lows - 1][x] as int))
  {
    hide Even, SameHalf;
    var n := Evens(lows, highs);
    var a, b, a', b' := Column(l, x), Column(h, x), Column(l', x), Column(h', x);
    if a[..n] == a'[..n] {
      forall r | 0 <= r < n
        ensures l[r][x] == l'[r][x]
      {
        assert a[..n][r] == a'[..n][r];
      }
    }
    if b == b' {
      forall r | 0 <= r < highs
        ensures h[r][x] == h'[r][x]
      {
        assert b[r] == b'[r];
      }
    }
  }

  /** Where nothing saturates, the blocks of two levels are equal exactly when the levels agree in that. */
  lemma InverseIsEqual(ll: Matrix, hl: Matrix, lh: Matrix, hh: Matrix,
                       ll': Matrix, hl': Matrix, lh': Matrix, hh': Matrix, lows: nat, highs: nat)
    requires BlockFits(ll, hl, lh, hh, lows, highs) && BlockFits(ll', hl', lh', hh', lows, highs)
    ensures Inverse(ll, hl, lh, hh, lows, highs) == Inverse(ll', hl', lh', hh', lows, highs) <==>
            SameLevel(ll, hl, lh, hh, ll', hl', lh', hh', lows, highs)
  {
    RowsOfLevels(ll, hl, lh, hh, ll', hl', lh', hh', lows, highs);
    BlocksOfRows(ll, hl, lh, hh, ll', hl', lh', hh', lows, highs);
  }

  /** The rows of both levels before the column pass, and the outputs the surplus row goes into. */
  ghost predicate SameRowsBut(ll: Matrix, hl: Matrix, lh: Matrix, hh: Matrix,
                              ll': Matrix, hl': Matrix, lh': Matrix, hh': Matrix, lows: nat, highs: nat)
    requires BlockFits(ll, hl, lh, hh, lows, highs) && BlockFits(ll', hl', lh', hh', lows, highs)
  {
    var l, h := Rows(ll, hl, lows, lows, highs), Rows(lh, hh, highs, lows, highs);
    var l', h' := Rows(ll', hl', lows, lows, highs), Rows(lh', hh', highs, lows, highs);
    && (forall r :: 0 <= r < highs ==> h[r] == h'[r])
    && (forall r :: 0 <= r < Evens(lows, highs) ==> l[r] == l'[r])
    && (lows == highs + 2 ==>
          forall x :: 0 <= x < lows + highs ==>
            var e := Even(Column(l, x), Column(h, x), highs) as int;
            SameHalf(e + l[lows - 1][x] as int, e + l'[lows - 1][x] as int))
  }

  lemma RowsOfLevels(ll: Matrix, hl: Matrix, lh: Matrix, hh: Matrix,
                     ll': Matrix, hl': Matrix, lh': Matrix, hh': Matrix, lows: nat, highs: nat)
    requires BlockFits(ll, hl, lh, hh, lows, highs) && BlockFits(ll', hl', lh', hh', lows, highs)
    ensures SameRowsBut(ll, hl, lh, hh, ll', hl', lh', hh', lows, highs) <==> SameLevel(ll, hl, lh, hh, ll', hl', lh', hh', lows, highs)
  {
    hide LineFits, Synthesis, Even, SameHalf, SameLine;
    forall r | 0 <= r < highs
      ensures Rows(lh, hh, highs, lows, highs)[r] == Rows(lh', hh', highs, lows, highs)[r] <==> SameLine(lh[r], hh[r], lh'[r], hh'[r])
    {
      LinesAreEqual(lh[r], hh[r], lh'[r], hh'[r]);
    }
    forall r | 0 <= r < lows
      ensures Rows(ll, hl, lows, lows, highs)[r] == Rows(ll', hl', lows, lows, highs)[r] <==> SameLine(ll[r], hl[r], ll'[r], hl'[r])
    {
      LinesAreEqual(ll[r], hl[r], ll'[r], hl'[r]);
    }
  }

  lemma BlocksOfRows(ll: Matrix, hl: Matrix, lh: Matrix, hh: Matrix,
                     ll': Matrix, hl': Matrix, lh': Matrix, hh': Matrix, lows: nat, highs: nat)
    requires BlockFits(ll, hl, lh, hh, lows, highs) && BlockFits(ll', hl', lh', hh', lows, highs)
    ensures Inverse(ll, hl, lh, hh, lows, highs) == Inverse(ll', hl', lh', hh', lows, highs) <==>
            SameRowsBut(ll, hl, lh, hh, ll', hl', lh', hh', lows, highs)
  {
    hide LineFits, Synthesis, Even, SameHalf, SameLine, Inverse, Rows;
    var l, h := Rows(ll, hl, lows, lows, highs), Rows(lh, hh, highs, lows, highs);
    var l', h' := Rows(ll', hl', lows, lows, highs), Rows(lh', hh', highs, lows, highs);
    var m, m' := Inverse(ll, hl, lh, hh, lows, highs), Inverse(ll', hl', lh', hh', lows, highs);
    forall x | 0 <= x < lows + highs
      ensures Column(m, x) == Column(m', x) <==> SameLine(Column(l, x), Column(h, x), Column(l', x), Column(h', x))
    {
      ColumnOfInverse(ll, hl, lh, hh, lows, highs, x);
      ColumnOfInverse(ll', hl', lh', hh', lows, highs, x);
      LinesAreEqual(Column(l, x), Column(h, x), Column(l', x), Column(h', x));
    }
    ColumnsTell(m, m', lows + highs);
    AllColumnsAgree(l, h, l', h', lows, highs);
  }

  lemma ColumnsTell(a: Matrix, b: Matrix, n: nat)
    requires Square(a, n) && Square(b, n)
    ensures a == b <==> forall x :: 0 <= x < n ==> Column(a, x) == Column(b, x)
  {
    if forall x :: 0 <= x < n ==> Column(a, x) == Column(b, x) {
      forall r, x | 0 <= r < n && 0 <= x < n
        ensures a[r][x] == b[r][x]
      {
        assert Column(a, x)[r] == Column(b, x)[r];
      }
      SameMatrix(a, b, n, n);
    }
  }

  /** The first k rows are equal if and only if they agree in every column. */
  lemma RowsTell(a: Matrix, b: Matrix, k: nat, n: nat)
    requires k <= |a| && k <= |b|
    requires forall r :: 0 <= r < k ==> |a[r]| == |b[r]| == n
    ensures (forall r :: 0 <= r < k ==> a[r] == b[r]) <==> forall r, x :: 0 <= r < k && 0 <= x < n ==> a[r][x] == b[r][x]
  {
    if forall r, x :: 0 <= r < k && 0 <= x < n ==> a[r][x] == b[r][x] {
      forall r | 0 <= r < k
        ensures a[r] == b[r]
      {
        forall x | 0 <= x < n
          ensures a[r][x] == b[r][x]
        {
        }
      }
    }
  }

  lemma AllColumnsAgree(l: Matrix, h: Matrix, l': Matrix, h': Matrix, lows: nat, highs: nat)
    requires Counts(lows, highs)
    requires Rectangle(l, lows, lows + highs) && Rectangle(h, highs, lows + highs)
    requires Rectangle(l', lows, lows + highs) && Rectangle(h', highs, lows + highs)
    ensures (forall x :: 0 <= x < lows + highs ==> SameLine(Column(l, x), Column(h, x), Column(l', x), Column(h', x))) <==>
            && (forall r :: 0 <= r < highs ==> h[r] == h'[r])
            && (forall r :: 0 <= r < Evens(lows, highs) ==> l[r] == l'[r])
            && (lows == highs + 2 ==>
                  forall x :: 0 <= x < lows + highs ==>
                    var e := Even(Column(l, x), Column(h, x), highs) as int;
                    SameHalf(e + l[lows - 1][x] as int, e + l'[lows - 1][x] as int))
  {
    hide Even, SameHalf, SameLine, Column;
    forall x | 0 <= x < lows + highs
      ensures SameLine(Column(l, x), Column(h, x), Column(l', x), Column(h', x)) <==>
              && (forall r :: 0 <= r < highs ==> h[r][x] == h'[r][x])
              && (forall r :: 0 <= r < Evens(lows, highs) ==> l[r][x] == l'[r][x])
              && (lows == highs + 2 ==>
                    var e := Even(Column(l, x), Column(h, x), highs) as int;
                    SameHalf(e + l[lows - 1][x] as int, e + l'[lows - 1][x] as int))
    {
      ColumnsAgree(l, h, l', h', lows, highs, x);
    }
    RowsTell(h, h', highs, lows + highs);
    RowsTell(l, l', Evens(lows, highs), lows + highs);
    if forall x :: 0 <= x < lows + highs ==> SameLine(Column(l, x), Column(h, x), Column(l', x), Column(h', x)) {
      forall r, x | 0 <= r < highs && 0 <= x < lows + highs
        ensures h[r][x] == h'[r][x]
      {
        assert SameLine(Column(l, x), Column(h, x), Column(l', x), Column(h', x));
      }
      forall r, x | 0 <= r < Evens(lows, highs) && 0 <= x < lows + highs
        ensures l[r][x] == l'[r][x]
      {
        assert SameLine(Column(l, x), Column(h, x), Column(l', x), Column(h', x));
      }
    }
  }

  lemma AllRows(a: Matrix, b: Matrix, n: nat)
    requires |a| == |b| && forall r :: 0 <= r < |a| ==> |a[r]| == |b[r]| == n && a[r][..n] == b[r][..n]
    ensures a == b
  {
    forall r | 0 <= r < |a|
      ensures a[r] == b[r]
    {
      assert a[r] == a[r][..n] == b[r][..n] == b[r];
    }
  }

  // ---------- The layout of the three levels ----------

  /** Low samples per axis at a level: 64 >> level, plus one. */
  function LowCount(level: nat): nat
    requires 1 <= level <= 3
  {
    Shr(64, level) + 1
  }

  function HighCount(level: nat): nat
    requires 1 <= level <= 3
  {
    if level == 1 then Shr(64, 1) - 1 else Shr(64 + Shl(1, level - 1), level)
  }

  function LevelBase(level: nat): nat
    requires 1 <= level <= 3
  {
    if level == 1 then 0 else if level == 2 then 3007 else 3807
  }

  /** Where the low subband of a level starts, behind HL, LH and HH. */
  function LowOffset(level: nat): nat
    requires 1 <= level <= 3
  {
    var l, h := LowCount(level), HighCount(level);
    LevelBase(level) + h * l + l * h + h * h
  }

  /**
   A level's square exactly replaces its four subbands: it ends where they end, at the end of
   the 4096 coefficients, and it lies where the next level expects its low subband, whose
   side is this square's.
   */
  lemma LevelsNest(level: nat)
    requires 1 <= level <= 3
    ensures Counts(LowCount(level), HighCount(level))
    ensures var l, n := LowCount(level), LowCount(level) + HighCount(level);
            LevelBase(level) + n * n == LowOffset(level) + l * l == 4096
    ensures level > 1 ==>
              LowCount(level) + HighCount(level) == LowCount(level - 1) && LevelBase(level) == LowOffset(level - 1)
    ensures level == 1 ==> LowCount(level) + HighCount(level) == 64
  {
    assert level == 1 || level == 2 || level == 3;
    assert Shr(64, 1) == 32 && Shr(64, 2) == 16 && Shr(64, 3) == 8 && Shr(66, 2) == 16 && Shr(68, 3) == 8;
    assert Shl(1, 1) == 2 && Shl(1, 2) == 4;
  }

  /** The subbands of the extrapolating layout. */
  datatype Subbands = Subbands(
    hl1: Matrix, lh1: Matrix, hh1: Matrix,
    hl2: Matrix, lh2: Matrix, hh2: Matrix,
    hl3: Matrix, lh3: Matrix, hh3: Matrix, ll3: Matrix)

  predicate Shaped(s: Subbands) {
    && Rectangle(s.hl1, 33, 31) && Rectangle(s.lh1, 31, 33) && Rectangle(s.hh1, 31, 31)
    && Rectangle(s.hl2, 17, 16) && Rectangle(s.lh2, 16, 17) && Rectangle(s.hh2, 16, 16)
    && Rectangle(s.hl3, 9, 8) && Rectangle(s.lh3, 8, 9) && Rectangle(s.hh3, 8, 8) && Rectangle(s.ll3, 9, 9)
  }

  function LL2(s: Subbands): (m: Matrix)
    requires Shaped(s)
    ensures Square(m, 17)
  {
    Inverse(s.ll3, s.hl3, s.lh3, s.hh3, 9, 8)
  }

  function LL1(s: Subbands): (m: Matrix)
    requires Shaped(s)
    ensures Square(m, 33)
  {
    Inverse(LL2(s), s.hl2, s.lh2, s.hh2, 17, 16)
  }

  /** The 64 by 64 picture. */
  function Picture(s: Subbands): (m: Matrix)
    requires Shaped(s)
    ensures Square(m, 64)
  {
    Inverse(LL1(s), s.hl1, s.lh1, s.hh1, 33, 31)
  }

  ghost predicate Fits(s: Subbands) {
    && Shaped(s)
    && BlockFits(s.ll3, s.hl3, s.lh3, s.hh3, 9, 8)
    && BlockFits(LL2(s), s.hl2, s.lh2, s.hh2, 17, 16)
    && BlockFits(LL1(s), s.hl1, s.lh1, s.hh1, 33, 31)
  }

  /** The two coarse levels lose nothing at all. */
  lemma CoarseLevelsInjective(a: Subbands, b: Subbands)
    requires Fits(a) && Fits(b) && LL1(a) == LL1(b)
    ensures a.hl2 == b.hl2 && a.lh2 == b.lh2 && a.hh2 == b.hh2
    ensures a.hl3 == b.hl3 && a.lh3 == b.lh3 && a.hh3 == b.hh3 && a.ll3 == b.ll3
  {
    hide BlockFits, Inverse, Rows;
    InverseDetermines(LL2(a), a.hl2, a.lh2, a.hh2, LL2(b), b.hl2, b.lh2, b.hh2, 17, 16);
    InverseDetermines(a.ll3, a.hl3, a.lh3, a.hh3, b.ll3, b.hl3, b.lh3, b.hh3, 9, 8);
  }

  /** Two pictures in which nothing saturates are equal exactly when their finest levels agree in everything a block can tell. */
  lemma PicturesAreEqual(a: Subbands, b: Subbands)
    requires Fits(a) && Fits(b)
    ensures Picture(a) == Picture(b) <==>
            SameLevel(LL1(a), a.hl1, a.lh1, a.hh1, LL1(b), b.hl1, b.lh1, b.hh1, 33, 31)
  {
    hide BlockFits, Inverse, Rows, LL1, SameLevel;
    InverseIsEqual(LL1(a), a.hl1, a.lh1, a.hh1, LL1(b), b.hl1, b.lh1, b.hh1, 33, 31);
  }

  // ---------- The finest level does lose something ----------

  function ZeroLine(n: nat): Line {
    seq(n, i => 0)
  }

  function ZeroMatrix(rows: nat, cols: nat): (m: Matrix)
    ensures Rectangle(m, rows, cols)
  {
    seq(rows, i => ZeroLine(cols))
  }

  lemma ZerosStay(lows: nat, highs: nat)
    requires Counts(lows, highs)
    ensures Synthesis(ZeroLine(lows), ZeroLine(highs)) == ZeroLine(lows + highs)
    ensures LineFits(ZeroLine(lows), ZeroLine(highs))
  {
    forall i | 0 <= i < lows + highs
      ensures Synthesis(ZeroLine(lows), ZeroLine(highs))[i] == 0
    {
    }
  }

  lemma ZeroBlock(lows: nat, highs: nat)
    requires Counts(lows, highs)
    ensures BlockFits(ZeroMatrix(lows, lows), ZeroMatrix(lows, highs), ZeroMatrix(highs, lows), ZeroMatrix(highs, highs), lows, highs)
    ensures Inverse(ZeroMatrix(lows, lows), ZeroMatrix(lows, highs), ZeroMatrix(highs, lows), ZeroMatrix(highs, highs), lows, highs)
         == ZeroMatrix(lows + highs, lows + highs)
  {
    hide LineFits, Synthesis;
    ZerosStay(lows, highs);
    var n := lows + highs;
    var l, h := Rows(ZeroMatrix(lows, lows), ZeroMatrix(lows, highs), lows, lows, highs),
                Rows(ZeroMatrix(highs, lows), ZeroMatrix(highs, highs), highs, lows, highs);
    assert l == ZeroMatrix(lows, n) && h == ZeroMatrix(highs, n);
    forall x | 0 <= x < n
      ensures Column(l, x) == ZeroLine(lows) && Column(h, x) == ZeroLine(highs)
    {
    }
    var m := Inverse(ZeroMatrix(lows, lows), ZeroMatrix(lows, highs), ZeroMatrix(highs, lows), ZeroMatrix(highs, highs), lows, highs);
    SameMatrix(m, ZeroMatrix(n, n), n, n);
  }

  /** At the finest level a last low sample of one or minus one beside zeros leaves no trace. */
  lemma LastLowIsLossy(v: I16)
    requires -1 <= v <= 1
    ensures Synthesis(ZeroLine(33)[32 := v], ZeroLine(31)) == Synthesis(ZeroLine(33), ZeroLine(31))
    ensures LineFits(ZeroLine(33)[32 := v], ZeroLine(31))
  {
    var low, high := ZeroLine(33), ZeroLine(31);
    LastLowIsShared(low, high, v);
  }

  function ZeroBands(v: I16): (s: Subbands)
    ensures Shaped(s)
  {
    Subbands(ZeroMatrix(33, 31), ZeroMatrix(31, 33)[0 := ZeroLine(33)[32 := v]], ZeroMatrix(31, 31),
             ZeroMatrix(17, 16), ZeroMatrix(16, 17), ZeroMatrix(16, 16),
             ZeroMatrix(9, 8), ZeroMatrix(8, 9), ZeroMatrix(8, 8), ZeroMatrix(9, 9))
  }

  /** Different subbands, none of which saturates anywhere, with the same picture. */
  lemma PictureIsLossy()
    ensures Fits(ZeroBands(0)) && Fits(ZeroBands(1)) && ZeroBands(0) != ZeroBands(1) && Picture(ZeroBands(0)) == Picture(ZeroBands(1))
  {
    hide LineFits, Synthesis, Inverse;
    BandsFit(0);
    BandsFit(1);
    assert ZeroBands(0).lh1[0][32] != ZeroBands(1).lh1[0][32];
  }

  lemma BandsFit(v: I16)
    requires -1 <= v <= 1
    ensures Fits(ZeroBands(v)) && Picture(ZeroBands(v)) == ZeroMatrix(64, 64)
  {
    hide LineFits, Synthesis, ZeroLine;
    var s := ZeroBands(v);
    ZeroBlock(9, 8);
    ZeroBlock(17, 16);
    ZeroBlock(33, 31);
    ZerosStay(33, 31);
    LastLowIsLossy(v);
    var h, h' := Rows(ZeroMatrix(31, 33), ZeroMatrix(31, 31), 31, 33, 31), Rows(s.lh1, s.hh1, 31, 33, 31);
    forall r | 0 <= r < 31
      ensures LineFits(s.lh1[r], s.hh1[r]) && h[r] == h'[r]
    {
      assert ZeroMatrix(31, 33)[r] == ZeroLine(33);
    }
    assert h == h';
    hide Inverse, Rows, Column;
    SameBlock(LL1(s), s.hl1, ZeroMatrix(31, 33), s.hh1, s.lh1, 33, 31);
  }

  /** A block depends on a subband only through its rows. */
  lemma SameBlock(ll: Matrix, hl: Matrix, lh: Matrix, hh: Matrix, lh': Matrix, lows: nat, highs: nat)
    requires BlockFits(ll, hl, lh, hh, lows, highs) && Rectangle(lh', highs, lows)
    requires Rows(lh', hh, highs, lows, highs) == Rows(lh, hh, highs, lows, highs)
    requires forall r :: 0 <= r < highs ==> LineFits(lh'[r], hh[r])
    ensures BlockFits(ll, hl, lh', hh, lows, highs)
    ensures Inverse(ll, hl, lh', hh, lows, highs) == Inverse(ll, hl, lh, hh, lows, highs)
  {
    hide LineFits, Synthesis, Rows;
  }
}
