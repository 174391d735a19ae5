/** `surface.rs`: a surface's pixel buffer and the operations that draw on it. */
module Surfaces {
  import opened Machine
  import opened Grid
  import opened Pixels
  import opened Canvas

  datatype WriteOutcome = WriteOutcome(requested: nat, written: nat, sourceTruncated: bool) {
    predicate Complete() {
      written == requested && !sourceTruncated
    }

    function Dropped(): nat {
      Max(0, requested - written)
    }
  }

  /** How many of the first `rows` rows, each `width` long, a buffer of `size` pixels holds whole. */
  function RowsReady(width: nat, size: nat, rows: nat): (n: nat)
    ensures n <= rows && At(0, width, n, 0) <= size
    ensures n < rows ==> At(0, width, n + 1, 0) > size
  {
    if rows == 0 then 0
    else
      var n := RowsReady(width, size, rows - 1);
      if n == rows - 1 && At(0, width, rows, 0) <= size then rows else n
  }

  class Surface {
    const width: nat
    const height: nat
    const pixels: array<Pixel>

    ghost predicate Valid() {
      pixels.Length == At(0, width, height, 0)
    }

    ghost function View(): (c: Canvas)
      requires Valid()
      reads pixels
      ensures c.Valid() && c.width == width && c.height == height
    {
      RowsAreWide(pixels[..], width, height);
      Canvas(width, height, RowsOf(pixels[..], width, height))
    }

    constructor (width: nat, height: nat)
      ensures Valid() && fresh(pixels) && this.width == width && this.height == height
      ensures View() == Blank(width, height)
    {
      this.width := width;
      this.height := height;
      AtIs(0, width, height, 0);
      pixels := new Pixel[height * width](i => ABSENT);
      new;
      ghost var goal := Blank(width, height).rows;
      RowsAreWide(pixels[..], width, height);
      forall y, x | 0 <= y < height && 0 <= x < width
        ensures RowsOf(pixels[..], width, height)[y][x] == goal[y][x]
      {
        RowCell(pixels[..], width, height, y, x);
      }
      SameRows(RowsOf(pixels[..], width, height), goal, width);
    }

    method SetPixelBgr(x: nat, y: nat, bgr: Bgr) returns (outcome: WriteOutcome)
      requires Valid()
      modifies pixels
      ensures View() == Filled(old(View()), Rect(x, y, 1, 1), Opaque(bgr))
      ensures outcome == WriteOutcome(1, Visible(View(), Rect(x, y, 1, 1)), false)
    {
      hide At, Progress, RowsOf;
      ghost var r, was := Rect(x, y, 1, 1), View();
      ghost var goal := Filled(was, r, Opaque(bgr));
      ProgressStarts(pixels[..], width, height, goal.rows);
      ProgressSkips(pixels[..], width, height, was.rows, goal.rows, 0, 0, y, x);
      if x >= width || y >= height {
        ProgressSkips(pixels[..], width, height, was.rows, goal.rows, y, x, Max(height, y + 1), 0);
        ProgressEnds(pixels[..], width, height, was.rows, goal.rows, Max(height, y + 1));
        return WriteOutcome(1, 0, false);
      }
      ProgressPaints(pixels[..], width, height, was.rows, goal.rows, y, x);
      pixels[At(0, width, y, x)] := Opaque(bgr);
      ProgressSkips(pixels[..], width, height, was.rows, goal.rows, y, x + 1, height, 0);
      ProgressEnds(pixels[..], width, height, was.rows, goal.rows, height);
      return WriteOutcome(1, 1, false);
    }

    method FillRow(py: nat, x: nat, w: nat, bgra: Pixel, ghost was: Rows<Pixel>, ghost goal: Rows<Pixel>, ghost r: Rect)
      returns (written: nat)
      requires Valid() && py < height && |was| == height && Wide(was, width) && |goal| == height && Wide(goal, width)
      requires Progress(pixels[..], width, height, was, goal, py, 0)
      requires FillGoal(width, height, was, goal, r, bgra) && r.x == x && r.w == w && r.y <= py < r.y + r.h
      modifies pixels
      ensures Progress(pixels[..], width, height, was, goal, py + 1, 0)
      ensures written == Covered(x, w, width)
    {
      hide At, Progress;
      ProgressSkips(pixels[..], width, height, was, goal, py, 0, py, x);
      written := 0;
      var col: nat := 0;
      while col < w
        invariant col <= w && (col > 0 ==> x + col <= width) && written == col
        invariant Progress(pixels[..], width, height, was, goal, py, x + col)
      {
        var px := x + col;
        if px >= width {
          break;
        }
        ProgressPaints(pixels[..], width, height, was, goal, py, px);
        pixels[At(0, width, py, px)] := bgra;
        written := written + 1;
        col := col + 1;
      }
      ProgressSkips(pixels[..], width, height, was, goal, py, x + col, py + 1, 0);
    }

    method FillRect(x: nat, y: nat, w: nat, h: nat, bgra: Pixel) returns (outcome: WriteOutcome)
      requires Valid()
      modifies pixels
      ensures View() == Filled(old(View()), Rect(x, y, w, h), bgra)
      ensures outcome == WriteOutcome(w * h, Visible(View(), Rect(x, y, w, h)), false)
    {
      hide At, Progress, RowsOf, Visible, FillGoal;
      ghost var r, was := Rect(x, y, w, h), View().rows;
      ghost var goal := Filled(View(), r, bgra).rows;
      ProgressStarts(pixels[..], width, height, goal);
      FillsRect(View(), r, bgra);
      FillSkips(pixels[..], width, height, was, goal, r, bgra, 0, y);
      hide Filled;
      ghost var columns := Covered(x, w, width);
      AtIs(0, columns, 0, 0);
      var written: nat, row: nat := 0, 0;
      while row < h
        invariant row <= h && (row > 0 ==> y + row <= height)
        invariant Progress(pixels[..], width, height, was, goal, y + row, 0)
        invariant written == At(0, columns, row, 0)
      {
        var py := y + row;
        if py >= height {
          break;
        }
        AtCol(0, columns, row, 0);
        var n := FillRow(py, x, w, bgra, was, goal, r);
        written := written + n;
        row := row + 1;
      }
      FillSkips(pixels[..], width, height, was, goal, r, bgra, y + row, Max(height, y + row));
      ProgressEnds(pixels[..], width, height, was, goal, Max(height, y + row));
      FillCounts(View(), r, row);
      outcome := WriteOutcome(w * h, written, false);
    }

    /** Copies one row of the surface; columns beyond the right edge keep what `out` holds. */
    method CopyRow(out: array<Pixel>, sy: nat, x: nat, columns: nat, w: nat, h: nat, row: nat, ghost was: Rows<Pixel>, ghost goal: Rows<Pixel>)
      requires Valid() && out != pixels && sy < height && x + columns <= width && columns <= w && row < h
      requires |was| == h && Wide(was, w) && |goal| == h && Wide(goal, w)
      requires Progress(out[..], w, h, was, goal, row, 0)
      requires forall c :: 0 <= c < w ==> goal[row][c] == if c < columns then View().rows[sy][x + c] else was[row][c]
      modifies out
      ensures Progress(out[..], w, h, was, goal, row + 1, 0)
    {
      hide At, Progress;
      for c := 0 to columns
        invariant Progress(out[..], w, h, was, goal, row, c)
      {
        RowCell(pixels[..], width, height, sy, x + c);
        ProgressPaints(out[..], w, h, was, goal, row, c);
        out[At(0, w, row, c)] := pixels[At(0, width, sy, x + c)];
      }
      ProgressSkips(out[..], w, h, was, goal, row, columns, row + 1, 0);
    }

    /** A rectangle as a buffer of its own; zeros stand in for pixels outside the surface. */
    method ExtractRect(x: nat, y: nat, w: nat, h: nat) returns (buffer: seq<Pixel>, outcome: WriteOutcome)
      requires Valid()
      ensures |buffer| == At(0, w, h, 0) && RowsOf(buffer, w, h) == Extracted(View(), Rect(x, y, w, h))
      ensures outcome == WriteOutcome(w * h, Visible(View(), Rect(x, y, w, h)), false)
    {
      hide At, Progress, RowsOf, Extracted;
      AtIs(0, w, h, 0);
      var out := new Pixel[h * w](i => ABSENT);
      BlankRows(out[..], w, h);
      ghost var was := RowsOf(out[..], w, h);
      ghost var goal := Extracted(View(), Rect(x, y, w, h));
      ProgressStarts(out[..], w, h, goal);
      ExtractsRect(View(), Rect(x, y, w, h));
      if x >= width || y >= height {
        ProgressSkips(out[..], w, h, was, goal, 0, 0, h, 0);
        ProgressEnds(out[..], w, h, was, goal, h);
        return out[..], WriteOutcome(w * h, 0, false);
      }
      var rowCols := Min(w, width - x);
      AtIs(0, rowCols, 0, 0);
      var written: nat, row: nat := 0, 0;
      while row < h
        invariant row <= h && (row > 0 ==> y + row <= height)
        invariant Progress(out[..], w, h, was, goal, row, 0)
        invariant written == At(0, rowCols, row, 0)
      {
        var sy := y + row;
        if sy >= height {
          break;
        }
        CopyRow(out, sy, x, rowCols, w, h, row, was, goal);
        AtCol(0, rowCols, row, 0);
        written := written + rowCols;
        row := row + 1;
      }
      ProgressSkips(out[..], w, h, was, goal, row, 0, h, 0);
      ProgressEnds(out[..], w, h, was, goal, h);
      FillCounts(View(), Rect(x, y, w, h), row);
      return out[..], WriteOutcome(w * h, written, false);
    }

    method BlitRow(py: nat, x: nat, w: nat, src: seq<Pixel>, start: nat, ghost was: Rows<Pixel>, ghost goal: Rows<Pixel>) returns (written: nat)
      requires Valid() && py < height && |was| == height && Wide(was, width) && |goal| == height && Wide(goal, width)
      requires start + w <= |src|
      requires Progress(pixels[..], width, height, was, goal, py, x)
      requires forall px :: 0 <= px < width ==> goal[py][px] == if x <= px < x + w then src[start + (px - x)] else was[py][px]
      modifies pixels
      ensures Progress(pixels[..], width, height, was, goal, py + 1, 0)
      ensures written == Covered(x, w, width)
    {
      hide At, Progress;
      written := 0;
      var col: nat := 0;
      while col < w
        invariant col <= w && (col > 0 ==> x + col <= width) && written == col
        invariant Progress(pixels[..], width, height, was, goal, py, x + col)
      {
        var px := x + col;
        if px >= width {
          break;
        }
        ProgressPaints(pixels[..], width, height, was, goal, py, px);
        pixels[At(0, width, py, px)] := src[start + col];
        written := written + 1;
        col := col + 1;
      }
      ProgressSkips(pixels[..], width, height, was, goal, py, x + col, py + 1, 0);
    }

    /** Copies the rows of `src` that are there; a missing row stops the copy, unless no row of the surface is left for it. */
    method BlitRect(x: nat, y: nat, w: nat, h: nat, src: seq<Pixel>) returns (outcome: WriteOutcome)
      requires Valid()
      modifies pixels
      ensures Wide(Source(src, w, h), w)
      ensures View() == Blitted(old(View()), x, y, w, Source(src, w, h))
      ensures outcome == BlitOutcome(View(), x, y, w, h, |src|)
    {
      hide At, Progress, RowsOf, RowsReady, BlitOutcome;
      ghost var ready := RowsReady(w, |src|, h);
      ghost var source := Source(src, w, h);
      RowsAreWide(src, w, ready);
      ghost var was := View().rows;
      ghost var goal := Blitted(View(), x, y, w, source).rows;
      ProgressStarts(pixels[..], width, height, goal);
      BlitsRect(View(), x, y, w, source);
      hide Blitted;
      ProgressSkips(pixels[..], width, height, was, goal, 0, 0, y, 0);
      ghost var columns := Covered(x, w, width);
      AtIs(0, columns, 0, 0);
      var written: nat, row: nat, sourceTruncated := 0, 0, false;
      while row < h
        invariant row <= ready && (row > 0 ==> y + row <= height) && !sourceTruncated
        invariant Progress(pixels[..], width, height, was, goal, y + row, 0)
        invariant written == At(0, columns, row, 0)
        decreases h - row
      {
        var py := y + row;
        if py >= height {
          break;
        }
        var start := At(0, w, row, 0);
        AtCol(0, w, row, 0);
        RowFits(w, |src|, h, row);
        if start + w > |src| {
          sourceTruncated := true;
          break;
        }
        ProgressSkips(pixels[..], width, height, was, goal, py, 0, py, x);
        AtCol(0, columns, row, 0);
        SourceRow(src, w, h, row);
        var n := BlitRow(py, x, w, src, start, was, goal);
        written := written + n;
        row := row + 1;
      }
      ProgressSkips(pixels[..], width, height, was, goal, y + row, 0, Max(height, y + row), 0);
      ProgressEnds(pixels[..], width, height, was, goal, Max(height, y + row));
      BlitCounts(View(), x, y, w, h, |src|, ready, row, sourceTruncated);
      outcome := WriteOutcome(w * h, written, sourceTruncated);
    }
  }

  lemma FillCounts(c: Canvas, r: Rect, row: nat)
    requires row <= r.h && (row > 0 ==> r.y + row <= c.height)
    requires row == r.h || r.y + row >= c.height
    ensures Visible(c, r) == At(0, Covered(r.x, r.w, c.width), row, 0)
  {
    hide At;
    AtIs(0, Covered(r.x, r.w, c.width), row, 0);
    assert row == Covered(r.y, r.h, c.height);
    var a := Covered(r.x, r.w, c.width);
    assert a * row == row * a;
  }

  lemma BlankRows(flat: seq<Pixel>, w: nat, h: nat)
    requires |flat| == At(0, w, h, 0) && forall i :: 0 <= i < |flat| ==> flat[i] == ABSENT
    ensures Wide(RowsOf(flat, w, h), w) && forall y, x :: 0 <= y < h && 0 <= x < w ==> RowsOf(flat, w, h)[y][x] == ABSENT
  {
    RowsAreWide(flat, w, h);
    forall y, x | 0 <= y < h && 0 <= x < w
      ensures RowsOf(flat, w, h)[y][x] == ABSENT
    {
      RowCell(flat, w, h, y, x);
    }
  }

  lemma ExtractsRect(c: Canvas, r: Rect)
    requires c.Valid()
    ensures forall y, x :: 0 <= y < r.h && 0 <= x < r.w ==>
              Extracted(c, r)[y][x] == if r.y + y < c.height && r.x + x < c.width then c.rows[r.y + y][r.x + x] else ABSENT
  {
    forall y, x | 0 <= y < r.h && 0 <= x < r.w
      ensures Extracted(c, r)[y][x] == PixelOr(c, r.x + x, r.y + y)
    {
      assert Extracted(c, r)[y] == ExtractedRow(c, r, y);
    }
  }

  lemma BlitCounts(c: Canvas, x: nat, y: nat, w: nat, h: nat, size: nat, ready: nat, row: nat, truncated: bool)
    requires ready == RowsReady(w, size, h) && row <= ready && (row > 0 ==> y + row <= c.height)
    requires if truncated then row == ready < h && y + row < c.height else row == h || y + row >= c.height
    ensures BlitOutcome(c, x, y, w, h, size) == WriteOutcome(w * h, At(0, Covered(x, w, c.width), row, 0), truncated)
  {
    hide RowsReady, At;
    AtIs(0, Covered(x, w, c.width), row, 0);
    assert row == Covered(y, ready, c.height);
    var a := Covered(x, w, c.width);
    assert a * row == row * a;
  }

  /** The rows that a buffer of `w` wide rows holds whole, at most `h` of them. */
  function Source(src: seq<Pixel>, w: nat, h: nat): Rows<Pixel> {
    RowsOf(src, w, RowsReady(w, |src|, h))
  }

  function BlitOutcome(c: Canvas, x: nat, y: nat, w: nat, h: nat, size: nat): WriteOutcome {
    var ready := RowsReady(w, size, h);
    WriteOutcome(w * h, Visible(c, Rect(x, y, w, ready)), ready < Covered(y, h, c.height))
  }

  lemma {:induction false} RowFits(w: nat, size: nat, h: nat, row: nat)
    requires row < h && row <= RowsReady(w, size, h)
    ensures row < RowsReady(w, size, h) <==> At(0, w, row, 0) + w <= size
  {
    var n := RowsReady(w, size, h);
    AtCol(0, w, row, 0);
    if row < n {
      RowsGrow(w, row + 1, n);
    }
  }

  lemma {:induction false} RowsGrow(w: nat, a: nat, b: nat)
    requires a <= b
    ensures At(0, w, a, 0) <= At(0, w, b, 0)
    decreases b
  {
    if a < b {
      RowsGrow(w, a, b - 1);
    }
  }

  lemma EnoughRows(w: nat, h: nat, size: nat)
    requires At(0, w, h, 0) <= size
    ensures RowsReady(w, size, h) == h
  {
    hide RowsReady, At;
    var n := RowsReady(w, size, h);
    if n < h {
      RowsGrow(w, n + 1, h);
    }
  }

  lemma SourceRow(src: seq<Pixel>, w: nat, h: nat, row: nat)
    requires row < RowsReady(w, |src|, h)
    ensures At(0, w, row, 0) + w <= |src| && Source(src, w, h)[row] == src[At(0, w, row, 0)..At(0, w, row, 0) + w]
  {
    RowsGrow(w, row + 1, RowsReady(w, |src|, h));
  }

  /** What a fill of `r` leads to: its cells take the colour, the others stay. */
  ghost predicate FillGoal(width: nat, height: nat, was: Rows<Pixel>, goal: Rows<Pixel>, r: Rect, p: Pixel)
    requires |was| == height && Wide(was, width) && |goal| == height && Wide(goal, width)
  {
    forall y, x :: 0 <= y < height && 0 <= x < width ==> goal[y][x] == if InRect(r, x, y) then p else was[y][x]
  }

  lemma FillSkips(now: seq<Pixel>, width: nat, height: nat, was: Rows<Pixel>, goal: Rows<Pixel>, r: Rect, p: Pixel, from: nat, to: nat)
    requires |was| == height && Wide(was, width) && |goal| == height && Wide(goal, width)
    requires FillGoal(width, height, was, goal, r, p) && Progress(now, width, height, was, goal, from, 0) && from <= to
    requires to <= r.y || from >= height || from >= r.y + r.h
    ensures Progress(now, width, height, was, goal, to, 0)
  {
    ProgressSkips(now, width, height, was, goal, from, 0, to, 0);
  }

  /** A fill paints the rectangle's cells and leaves the others alone. */
  lemma FillsRect(c: Canvas, r: Rect, p: Pixel)
    requires c.Valid()
    ensures Filled(c, r, p).Valid() && FillGoal(c.width, c.height, c.rows, Filled(c, r, p).rows, r, p)
  {
  }

  lemma BlitsRect(c: Canvas, x0: nat, y0: nat, w: nat, src: Rows<Pixel>)
    requires c.Valid() && Wide(src, w)
    ensures forall y, x :: 0 <= y < c.height && 0 <= x < c.width ==>
              Blitted(c, x0, y0, w, src).rows[y][x]
              == if InRect(Rect(x0, y0, w, |src|), x, y) then src[y - y0][x - x0] else c.rows[y][x]
  {
  }
}
