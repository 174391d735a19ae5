/** Matrices of coefficients, and where their cells lie in a flat buffer. */
module Matrices {
  import opened Machine

  type Line = seq<I16>
  type Matrix = seq<Line>

  predicate Square(m: Matrix, w: nat) {
    |m| == w && forall r :: 0 <= r < w ==> |m[r]| == w
  }

  predicate Rectangle(m: Matrix, rows: nat, cols: nat) {
    |m| == rows && forall r :: 0 <= r < rows ==> |m[r]| == cols
  }

  function Column(m: Matrix, x: nat): (r: Line)
    requires forall r :: 0 <= r < |m| ==> x < |m[r]|
    ensures |r| == |m|
  {
    seq(|m|, r requires 0 <= r < |m| => m[r][x])
  }

  lemma SameMatrix(a: Matrix, b: Matrix, rows: nat, cols: nat)
    requires Rectangle(a, rows, cols) && Rectangle(b, rows, cols)
    requires forall r, x :: 0 <= r < rows && 0 <= x < cols ==> a[r][x] == b[r][x]
    ensures a == b
  {
    forall r | 0 <= r < rows
      ensures a[r] == b[r]
    {
    }
  }
}

/** Row-major blocks inside a buffer, and writes that touch one row or one column of them. */
module Blocks {
  import opened Machine
  import opened Grid
  import opened Matrices

  /** One row of a block; a row that is not inside the buffer counts as zeros. */
  function RowOf(buffer: seq<I16>, base: nat, width: nat, row: nat): (l: Line)
    ensures |l| == width
  {
    var at := At(base, width, row, 0);
    if at + width <= |buffer| then buffer[at..at + width] else seq(width, i => 0)
  }

  /** `rows` rows of a `width` wide block, from row `row` on. */
  function Block(buffer: seq<I16>, base: nat, width: nat, row: nat, rows: nat): (m: Matrix)
    ensures Rectangle(m, rows, width)
  {
    var m := seq(rows, r requires 0 <= r < rows => RowOf(buffer, base, width, row + r));
    assert forall r :: 0 <= r < rows ==> m[r] == RowOf(buffer, base, width, row + r);
    m
  }

  /** A row that lies before `lo` or behind `hi` is untouched by a write between them. */
  lemma RowUnchanged(a: seq<I16>, b: seq<I16>, base: nat, width: nat, row: nat, lo: nat, hi: nat)
    requires lo <= hi <= |a| == |b| && a[..lo] == b[..lo] && a[hi..] == b[hi..]
    requires At(base, width, row, 0) + width <= lo || hi <= At(base, width, row, 0)
    ensures RowOf(a, base, width, row) == RowOf(b, base, width, row)
  {
    var at := At(base, width, row, 0);
    if at + width <= |a| {
      forall i | at <= i < at + width
        ensures a[i] == b[i]
      {
        if at + width <= lo {
          assert a[..lo][i] == b[..lo][i];
        } else {
          assert a[hi..][i - hi] == b[hi..][i - hi];
        }
      }
    }
  }

  /** Rows `row` and `row'` of one block do not overlap. */
  lemma RowsApart(base: nat, width: nat, row: nat, row': nat)
    requires width >= 1 && row != row'
    ensures At(base, width, row', 0) + width <= At(base, width, row, 0)
         || At(base, width, row, 0) + width <= At(base, width, row', 0)
  {
    if row < row' {
      AtInside(base, width, row', row, 0);
    } else {
      AtInside(base, width, row, row', 0);
    }
  }

  /** A write to one row of a block leaves all its other rows. */
  lemma OtherRowsKept(a: seq<I16>, b: seq<I16>, base: nat, width: nat, row: nat)
    requires width >= 1 && At(base, width, row, 0) + width <= |a| == |b|
    requires a[..At(base, width, row, 0)] == b[..At(base, width, row, 0)]
    requires a[At(base, width, row, 0) + width..] == b[At(base, width, row, 0) + width..]
    ensures forall k: nat :: k != row ==> RowOf(a, base, width, k) == RowOf(b, base, width, k)
  {
    hide At, RowOf;
    var at := At(base, width, row, 0);
    forall k: nat | k != row
      ensures RowOf(a, base, width, k) == RowOf(b, base, width, k)
    {
      RowsApart(base, width, k, row);
      RowUnchanged(a, b, base, width, k, at, at + width);
    }
  }

  lemma {:induction false} AtShift(base: nat, w: nat, a: nat, r: nat)
    ensures At(base, w, a + r, 0) == At(At(base, w, a, 0), w, r, 0)
  {
    if r > 0 {
      AtShift(base, w, a, r - 1);
    }
  }

  lemma AllInside(base: nat, width: nat, rows: nat)
    ensures forall r: nat, c: nat {:trigger At(base, width, r, c)} ::
              r < rows && c < width ==> base <= At(base, width, r, c) < At(base, width, rows, 0)
  {
    forall r: nat, c: nat | r < rows && c < width
      ensures base <= At(base, width, r, c) < At(base, width, rows, 0)
    {
      AtInside(base, width, rows, r, c);
    }
  }

  /** Stores one cell of a `rows` by `width` block; every other cell keeps its value. */
  method WriteCell(buffer: array<I16>, ghost base: nat, ghost width: nat, ghost rows: nat, ghost row: nat, ghost col: nat,
                   index: nat, v: I16)
    requires row < rows && col < width && index == At(base, width, row, col)
    requires At(base, width, rows, 0) <= buffer.Length
    modifies buffer
    ensures index < buffer.Length && buffer[index] == v
    ensures forall r: nat, c: nat {:trigger At(base, width, r, c)} ::
              r < rows && c < width ==>
                At(base, width, r, c) < buffer.Length &&
                ((r != row || c != col) ==> buffer[At(base, width, r, c)] == old(buffer[At(base, width, r, c)]))
    ensures base <= At(base, width, rows, 0)
    ensures buffer[..base] == old(buffer[..base])
    ensures buffer[At(base, width, rows, 0)..] == old(buffer[At(base, width, rows, 0)..])
  {
    AllInside(base, width, rows);
    AtDiffers(base, width, row, col);
    hide At;
    assert base <= index < At(base, width, rows, 0);
    buffer[index] := v;
  }

  /** Column `x` of a block holds the samples of `d`. */
  ghost predicate Holds(buffer: seq<I16>, base: nat, width: nat, x: nat, d: Line) {
    forall y: nat {:trigger At(base, width, y, x)} :: y < |d| ==>
      At(base, width, y, x) < |buffer| && buffer[At(base, width, y, x)] == d[y]
  }

  /** Two states of a buffer agree except in column `x` of the `n` by `n` block at `base`. */
  ghost predicate OnlyColumn(a: seq<I16>, b: seq<I16>, base: nat, n: nat, x: nat) {
    && |a| == |b| && base <= At(base, n, n, 0) <= |a|
    && a[..base] == b[..base] && a[At(base, n, n, 0)..] == b[At(base, n, n, 0)..]
    && forall y: nat, c: nat {:trigger At(base, n, y, c)} ::
         y < n && c < n && c != x ==>
           At(base, n, y, c) < |a| && a[At(base, n, y, c)] == b[At(base, n, y, c)]
  }

  /** Stores sample `y` of column `x`. */
  method StoreSample(buffer: array<I16>, ghost base: nat, ghost n: nat, ghost x: nat, ghost y: nat, index: nat, v: I16,
                     ghost d: Line, ghost before: seq<I16>)
    requires x < n && y < n == |d| && index == At(base, n, y, x)
    requires Holds(buffer[..], base, n, x, d) && OnlyColumn(buffer[..], before, base, n, x)
    modifies buffer
    ensures Holds(buffer[..], base, n, x, d[y := v]) && OnlyColumn(buffer[..], before, base, n, x)
  {
    hide At;
    WriteCell(buffer, base, n, n, y, x, index, v);
  }

  function ColumnCells(buffer: seq<I16>, base: nat, n: nat, x: nat): (d: Line)
    ensures |d| == n
  {
    seq(n, y requires 0 <= y < n =>
      var i := At(base, n, y, x);
      if i < |buffer| then buffer[i] else 0)
  }

  lemma AtZero(base: nat, width: nat, col: nat)
    ensures At(base, width, 0, col) == base + col
  {
  }

  lemma StartColumn(buffer: seq<I16>, base: nat, n: nat, x: nat)
    requires x < n && At(base, n, n, 0) <= |buffer|
    ensures Holds(buffer, base, n, x, ColumnCells(buffer, base, n, x))
    ensures OnlyColumn(buffer, buffer, base, n, x)
  {
    AllInside(base, n, n);
    hide At;
  }

  lemma HeldAt(buffer: seq<I16>, base: nat, n: nat, x: nat, d: Line, y: nat)
    requires Holds(buffer, base, n, x, d) && y < |d|
    ensures At(base, n, y, x) < |buffer| && buffer[At(base, n, y, x)] == d[y]
  {
  }

  lemma KeptOutside(a: seq<I16>, b: seq<I16>, base: nat, n: nat, x: nat)
    requires OnlyColumn(a, b, base, n, x)
    ensures |a| == |b| && base <= At(base, n, n, 0) <= |a|
    ensures a[..base] == b[..base] && a[At(base, n, n, 0)..] == b[At(base, n, n, 0)..]
  {
  }

  lemma StillHolds(a: seq<I16>, b: seq<I16>, base: nat, n: nat, x: nat, c: nat, d: Line)
    requires OnlyColumn(a, b, base, n, x) && c != x && c < n && |d| == n && Holds(b, base, n, c, d)
    ensures Holds(a, base, n, c, d)
  {
    hide At;
  }

  /** Cell `k` of a column of some rows of a block, in the buffer. */
  lemma ColumnAt(buffer: seq<I16>, n: nat, row: nat, rows: nat, x: nat, k: nat)
    requires x < n && k < rows && At(0, n, row + rows, 0) <= |buffer|
    ensures At(0, n, row + k, x) < |buffer|
    ensures Column(Block(buffer, 0, n, row, rows), x)[k] == buffer[At(0, n, row + k, x)]
  {
    AtInside(0, n, row + rows, row + k, x);
    AtCol(0, n, row + k, x);
    hide At;
    assert Column(Block(buffer, 0, n, row, rows), x)[k] == RowOf(buffer, 0, n, row + k)[x];
  }

  /** A block that ends before a write keeps its contents. */
  lemma BlockKept(a: seq<I16>, b: seq<I16>, base: nat, width: nat, row: nat, rows: nat, lo: nat)
    requires |a| == |b| && lo <= |a| && a[..lo] == b[..lo] && At(base, width, row + rows, 0) <= lo
    ensures Block(a, base, width, row, rows) == Block(b, base, width, row, rows)
  {
    hide RowOf, At;
    forall r | 0 <= r < rows
      ensures Block(a, base, width, row, rows)[r] == Block(b, base, width, row, rows)[r]
    {
      if width > 0 {
        AtInside(base, width, row + rows, row + r, 0);
        RowUnchanged(a, b, base, width, row + r, lo, |a|);
      }
    }
  }
}
