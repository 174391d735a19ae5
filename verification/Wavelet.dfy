/**
 The inverse wavelet transform of the plain layout (section 3.1.8.2.4 of MS-RDPRFX) in closed
 form, the forward transform, and the proof that the latter recovers every subband.
 */
module Wavelet {
  import opened Machine
  import opened Matrices

  // ---------- One line ----------

  function LiftEven(l: int, h0: int, h1: int): int {
    l - (h0 + h1 + 1) / 2
  }

  function LiftOdd(h: int, e0: int, e1: int): int {
    2 * h + (e0 + e1) / 2
  }

  function UnliftOdd(o: int, e0: int, e1: int): int {
    (o - (e0 + e1) / 2) / 2
  }

  function UnliftEven(e: int, h0: int, h1: int): int {
    e + (h0 + h1 + 1) / 2
  }

  /** The even sample `n` before truncation; the high band is mirrored at its start. */
  function EvenExact(low: Line, high: Line, n: nat): int
    requires |low| == |high| && n < |low|
  {
    LiftEven(low[n], high[if n == 0 then 0 else n - 1], high[n])
  }

  function Even(low: Line, high: Line, n: nat): I16
    requires |low| == |high| && n < |low|
  {
    Wrap16(EvenExact(low, high, n))
  }

  /** The odd sample `n` before truncation; the even samples are mirrored at their end. */
  function OddExact(low: Line, high: Line, n: nat): int
    requires |low| == |high| && n < |low|
  {
    LiftOdd(high[n], Even(low, high, n), Even(low, high, if n + 1 < |low| then n + 1 else n))
  }

  function Sample(low: Line, high: Line, i: nat): I16
    requires |low| == |high| && i < 2 * |low|
  {
    if i % 2 == 0 then Even(low, high, i / 2) else Wrap16(OddExact(low, high, i / 2))
  }

  /** One line rebuilt from its low and its high band. */
  function Synthesis(low: Line, high: Line): (r: Line)
    requires |low| == |high|
    ensures |r| == 2 * |low|
  {
    seq(2 * |low|, i requires 0 <= i < 2 * |low| => Sample(low, high, i))
  }

  /** No sample of the line leaves the range of an i16. */
  predicate LineFits(low: Line, high: Line)
    requires |low| == |high|
  {
    forall n :: 0 <= n < |low| ==>
      && -0x8000 <= EvenExact(low, high, n) < 0x8000
      && -0x8000 <= OddExact(low, high, n) < 0x8000
  }

  function HighOf(x: Line, n: nat): int
    requires |x| % 2 == 0 && n < |x| / 2
  {
    UnliftOdd(x[2 * n + 1], x[2 * n], x[if 2 * n + 2 < |x| then 2 * n + 2 else 2 * n])
  }

  function LowOf(x: Line, n: nat): int
    requires |x| % 2 == 0 && n < |x| / 2
  {
    UnliftEven(x[2 * n], HighOf(x, if n == 0 then 0 else n - 1), HighOf(x, n))
  }

  /** The sender's two bands of a line. */
  function Highs(x: Line): (r: seq<int>)
    requires |x| % 2 == 0
    ensures |r| == |x| / 2
  {
    seq(|x| / 2, n requires 0 <= n < |x| / 2 => HighOf(x, n))
  }

  function Lows(x: Line): (r: seq<int>)
    requires |x| % 2 == 0
    ensures |r| == |x| / 2
  {
    seq(|x| / 2, n requires 0 <= n < |x| / 2 => LowOf(x, n))
  }

  lemma SamplesAre(low: Line, high: Line, n: nat)
    requires |low| == |high| && n < |low|
    ensures Synthesis(low, high)[2 * n] == Even(low, high, n)
    ensures Synthesis(low, high)[2 * n + 1] == Wrap16(OddExact(low, high, n))
  {
    hide Wrap16, LiftEven, LiftOdd;
    assert (2 * n) / 2 == n && (2 * n + 1) / 2 == n && (2 * n) % 2 == 0 && (2 * n + 1) % 2 == 1;
  }

  lemma SamplesAt(low: Line, high: Line, n: nat)
    requires |low| == |high| && LineFits(low, high) && n < |low|
    ensures Synthesis(low, high)[2 * n] == Even(low, high, n) == EvenExact(low, high, n)
    ensures Synthesis(low, high)[2 * n + 1] == OddExact(low, high, n)
  {
    hide Wrap16, LiftEven, LiftOdd, Synthesis;
    InRange(EvenExact(low, high, n));
    InRange(OddExact(low, high, n));
    SamplesAre(low, high, n);
  }

  lemma UnliftLift(h: int, e0: int, e1: int)
    ensures UnliftOdd(LiftOdd(h, e0, e1), e0, e1) == h
    ensures forall l :: UnliftEven(LiftEven(l, e0, e1), e0, e1) == l
  {
  }

  lemma HighRecovered(low: Line, high: Line, n: nat)
    requires |low| == |high| && LineFits(low, high) && n < |low|
    ensures HighOf(Synthesis(low, high), n) == high[n]
  {
    hide Synthesis, LiftOdd, UnliftOdd, Even, EvenExact, LineFits;
    SamplesAt(low, high, n);
    if n + 1 < |low| {
      SamplesAt(low, high, n + 1);
      assert 2 * (n + 1) == 2 * n + 2;
    }
    UnliftLift(high[n], Even(low, high, n), Even(low, high, if n + 1 < |low| then n + 1 else n));
  }

  lemma InRange(v: int)
    requires -0x8000 <= v < 0x8000
    ensures Wrap16(v) == v
  {
  }

  /** Analysing a rebuilt line gives back both bands it was built from. */
  lemma LineRecovered(low: Line, high: Line)
    requires |low| == |high| && LineFits(low, high)
    ensures Lows(Synthesis(low, high)) == low && Highs(Synthesis(low, high)) == high
  {
    hide Synthesis, HighOf, LiftEven, UnliftEven, LineFits, OddExact;
    var x := Synthesis(low, high);
    forall n | 0 <= n < |low|
      ensures HighOf(x, n) == high[n] && LowOf(x, n) == low[n]
    {
      var m := if n == 0 then 0 else n - 1;
      HighRecovered(low, high, n);
      HighRecovered(low, high, m);
      SamplesAt(low, high, n);
      UnliftLift(0, high[m], high[n]);
    }
  }

  // ---------- Two dimensions ----------

  /** Each row of `low` joined with the row of `high` beside it. */
  function Rows(low: Matrix, high: Matrix, w: nat): (r: Matrix)
    requires Square(low, w) && Square(high, w)
    ensures Rectangle(r, w, 2 * w)
  {
    seq(w, r requires 0 <= r < w => Synthesis(low[r], high[r]))
  }

  /** The rebuilt block: rows first, then columns. */
  function Inverse(ll: Matrix, hl: Matrix, lh: Matrix, hh: Matrix, w: nat): (m: Matrix)
    requires Square(ll, w) && Square(hl, w) && Square(lh, w) && Square(hh, w)
    ensures Square(m, 2 * w)
  {
    var l, h := Rows(ll, hl, w), Rows(lh, hh, w);
    seq(2 * w, y requires 0 <= y < 2 * w =>
      seq(2 * w, x requires 0 <= x < 2 * w => Synthesis(Column(l, x), Column(h, x))[y]))
  }

  /** No intermediate of the block, in either pass, leaves the range of an i16. */
  predicate BlockFits(ll: Matrix, hl: Matrix, lh: Matrix, hh: Matrix, w: nat) {
    && Square(ll, w) && Square(hl, w) && Square(lh, w) && Square(hh, w)
    && (forall r :: 0 <= r < w ==> LineFits(ll[r], hl[r]))
    && (forall r :: 0 <= r < w ==> LineFits(lh[r], hh[r]))
    && (forall x :: 0 <= x < 2 * w ==> LineFits(Column(Rows(ll, hl, w), x), Column(Rows(lh, hh, w), x)))
  }

  predicate FitsI16(v: int) {
    -0x8000 <= v < 0x8000
  }

  function ToI16(v: int): I16 {
    if FitsI16(v) then v else 0
  }

  /** The sender's column pass: rows 0..w of the result are the low half, the rest the high half. */
  function Columns(m: Matrix, w: nat, high: bool): (r: Matrix)
    requires Square(m, 2 * w)
    ensures Rectangle(r, w, 2 * w)
  {
    seq(w, r requires 0 <= r < w => seq(2 * w, x requires 0 <= x < 2 * w =>
      ToI16(if high then Highs(Column(m, x))[r] else Lows(Column(m, x))[r])))
  }

  /** The sender's row pass. */
  function Halves(m: Matrix, w: nat, high: bool): (r: Matrix)
    requires Rectangle(m, w, 2 * w)
    ensures Square(r, w)
  {
    seq(w, r requires 0 <= r < w => seq(w, n requires 0 <= n < w =>
      ToI16(if high then Highs(m[r])[n] else Lows(m[r])[n])))
  }

  lemma ColumnOfInverse(ll: Matrix, hl: Matrix, lh: Matrix, hh: Matrix, w: nat, x: nat)
    requires Square(ll, w) && Square(hl, w) && Square(lh, w) && Square(hh, w) && x < 2 * w
    ensures Column(Inverse(ll, hl, lh, hh, w), x) == Synthesis(Column(Rows(ll, hl, w), x), Column(Rows(lh, hh, w), x))
  {
    hide Sample, Rows;
  }

  lemma ColumnsRecovered(ll: Matrix, hl: Matrix, lh: Matrix, hh: Matrix, w: nat)
    requires BlockFits(ll, hl, lh, hh, w)
    ensures Columns(Inverse(ll, hl, lh, hh, w), w, false) == Rows(ll, hl, w)
    ensures Columns(Inverse(ll, hl, lh, hh, w), w, true) == Rows(lh, hh, w)
  {
    hide LineFits, Synthesis, Lows, Highs, Rows, Inverse;
    var m, l, h := Inverse(ll, hl, lh, hh, w), Rows(ll, hl, w), Rows(lh, hh, w);
    forall r, x | 0 <= r < w && 0 <= x < 2 * w
      ensures Columns(m, w, false)[r][x] == l[r][x] && Columns(m, w, true)[r][x] == h[r][x]
    {
      ColumnOfInverse(ll, hl, lh, hh, w, x);
      LineRecovered(Column(l, x), Column(h, x));
    }
    SameMatrix(Columns(m, w, false), l, w, 2 * w);
    SameMatrix(Columns(m, w, true), h, w, 2 * w);
  }

  lemma HalvesRecovered(low: Matrix, high: Matrix, w: nat)
    requires Square(low, w) && Square(high, w)
    requires forall r :: 0 <= r < w ==> LineFits(low[r], high[r])
    ensures Halves(Rows(low, high, w), w, false) == low && Halves(Rows(low, high, w), w, true) == high
  {
    hide LineFits, Synthesis, Lows, Highs;
    var m := Rows(low, high, w);
    forall r, n | 0 <= r < w && 0 <= n < w
      ensures Halves(m, w, false)[r][n] == low[r][n] && Halves(m, w, true)[r][n] == high[r][n]
    {
      LineRecovered(low[r], high[r]);
    }
    SameMatrix(Halves(m, w, false), low, w, w);
    SameMatrix(Halves(m, w, true), high, w, w);
  }

  /** The sender's transform of a block recovers all four subbands exactly. */
  lemma BlockRecovered(ll: Matrix, hl: Matrix, lh: Matrix, hh: Matrix, w: nat)
    requires BlockFits(ll, hl, lh, hh, w)
    ensures var m := Inverse(ll, hl, lh, hh, w);
            var l, h := Columns(m, w, false), Columns(m, w, true);
            && Halves(l, w, false) == ll && Halves(l, w, true) == hl
            && Halves(h, w, false) == lh && Halves(h, w, true) == hh
  {
    hide LineFits, Inverse, Columns, Halves, Rows;
    ColumnsRecovered(ll, hl, lh, hh, w);
    HalvesRecovered(ll, hl, w);
    HalvesRecovered(lh, hh, w);
  }

  /** Where nothing leaves the range, equal pictures come from equal subbands. */
  lemma InverseInjective(ll: Matrix, hl: Matrix, lh: Matrix, hh: Matrix,
                         ll': Matrix, hl': Matrix, lh': Matrix, hh': Matrix, w: nat)
    requires BlockFits(ll, hl, lh, hh, w) && BlockFits(ll', hl', lh', hh', w)
    requires Inverse(ll, hl, lh, hh, w) == Inverse(ll', hl', lh', hh', w)
    ensures ll == ll' && hl == hl' && lh == lh' && hh == hh'
  {
    hide *;
    BlockRecovered(ll, hl, lh, hh, w);
    BlockRecovered(ll', hl', lh', hh', w);
  }

  // ---------- Three levels ----------

  /** The high subbands of the three levels and the coarsest low one, w being 8, 16 and 32. */
  datatype Subbands = Subbands(
    hl1: Matrix, lh1: Matrix, hh1: Matrix,
    hl2: Matrix, lh2: Matrix, hh2: Matrix,
    hl3: Matrix, lh3: Matrix, hh3: Matrix, ll3: Matrix)

  predicate Shaped(s: Subbands) {
    && Square(s.hl1, 32) && Square(s.lh1, 32) && Square(s.hh1, 32)
    && Square(s.hl2, 16) && Square(s.lh2, 16) && Square(s.hh2, 16)
    && Square(s.hl3, 8) && Square(s.lh3, 8) && Square(s.hh3, 8) && Square(s.ll3, 8)
  }

  function LL2(s: Subbands): (m: Matrix)
    requires Shaped(s)
    ensures Square(m, 16)
  {
    Inverse(s.ll3, s.hl3, s.lh3, s.hh3, 8)
  }

  function LL1(s: Subbands): (m: Matrix)
    requires Shaped(s)
    ensures Square(m, 32)
  {
    Inverse(LL2(s), s.hl2, s.lh2, s.hh2, 16)
  }

  /** The 64 by 64 picture. */
  function Picture(s: Subbands): (m: Matrix)
    requires Shaped(s)
    ensures Square(m, 64)
  {
    Inverse(LL1(s), s.hl1, s.lh1, s.hh1, 32)
  }

  predicate Fits(s: Subbands) {
    && Shaped(s)
    && BlockFits(s.ll3, s.hl3, s.lh3, s.hh3, 8)
    && BlockFits(LL2(s), s.hl2, s.lh2, s.hh2, 16)
    && BlockFits(LL1(s), s.hl1, s.lh1, s.hh1, 32)
  }

  /** All ten subbands can be read off the picture. */
  lemma PictureInjective(a: Subbands, b: Subbands)
    requires Fits(a) && Fits(b) && Picture(a) == Picture(b)
    ensures a == b
  {
    hide BlockFits, Inverse;
    InverseInjective(LL1(a), a.hl1, a.lh1, a.hh1, LL1(b), b.hl1, b.lh1, b.hh1, 32);
    InverseInjective(LL2(a), a.hl2, a.lh2, a.hh2, LL2(b), b.hl2, b.lh2, b.hh2, 16);
    InverseInjective(a.ll3, a.hl3, a.lh3, a.hh3, b.ll3, b.hl3, b.lh3, b.hh3, 8);
  }
}
