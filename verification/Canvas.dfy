/** Pictures as rows of pixels, and what the drawing operations of a surface mean for them. */
module Canvas {
  import opened Machine
  import opened Grid
  import opened Pixels

  type Rows<T> = seq<seq<T>>

  /** A picture; also the shape of a cached or extracted rectangle. */
  datatype Canvas = Canvas(width: nat, height: nat, rows: Rows<Pixel>) {
    ghost predicate Valid() {
      |rows| == height && forall y :: 0 <= y < height ==> |rows[y]| == width
    }
  }

  /** A picture whose rows are all as long as it is wide. */
  type Image = c: Canvas | c.Valid() witness Canvas(0, 0, [])

  ghost predicate Wide<T>(rows: Rows<T>, width: nat) {
    forall y :: 0 <= y < |rows| ==> |rows[y]| == width
  }

  datatype Rect = Rect(x: nat, y: nat, w: nat, h: nat)

  predicate InRect(r: Rect, x: nat, y: nat) {
    r.x <= x < r.x + r.w && r.y <= y < r.y + r.h
  }

  // ---------- Flat buffers ----------

  function RowAt<T>(flat: seq<T>, width: nat, y: nat): seq<T> {
    var at := At(0, width, y, 0);
    if at + width <= |flat| then flat[at..at + width] else []
  }

  function RowsOf<T>(flat: seq<T>, width: nat, n: nat): (rows: Rows<T>)
    ensures |rows| == n
  {
    seq(n, y requires 0 <= y < n => RowAt(flat, width, y))
  }

  lemma RowCell<T>(flat: seq<T>, width: nat, n: nat, y: nat, x: nat)
    requires At(0, width, n, 0) <= |flat| && y < n && x < width
    ensures At(0, width, y, x) < |flat| && |RowsOf(flat, width, n)[y]| == width
    ensures RowsOf(flat, width, n)[y][x] == flat[At(0, width, y, x)]
  {
    hide At;
    AtInside(0, width, n, y, x);
    AtCol(0, width, y, x);
    assert RowsOf(flat, width, n)[y] == RowAt(flat, width, y);
  }

  lemma RowsAreWide<T>(flat: seq<T>, width: nat, n: nat)
    requires At(0, width, n, 0) <= |flat|
    ensures Wide(RowsOf(flat, width, n), width)
  {
    forall y | 0 <= y < n
      ensures |RowsOf(flat, width, n)[y]| == width
    {
      if width > 0 {
        RowCell(flat, width, n, y, 0);
      }
    }
  }

  lemma SameRows<T>(a: Rows<T>, b: Rows<T>, width: nat)
    requires |a| == |b| && Wide(a, width) && Wide(b, width)
    requires forall y, x :: 0 <= y < |a| && 0 <= x < width ==> a[y][x] == b[y][x]
    ensures a == b
  {
    forall y | 0 <= y < |a|
      ensures a[y] == b[y]
    {
    }
  }

  function OpaqueAt(flat: seq<Bgr>, w: nat, h: nat, x: nat, y: nat): Pixel
    requires At(0, w, h, 0) <= |flat| && x < w && y < h
  {
    AtInside(0, w, h, y, x);
    Opaque(flat[At(0, w, y, x)])
  }

  /** A tile of colours as rows of opaque pixels. */
  function OpaqueRows(flat: seq<Bgr>, w: nat, h: nat): (rows: Rows<Pixel>)
    requires At(0, w, h, 0) <= |flat|
    ensures |rows| == h && Wide(rows, w)
  {
    seq(h, y requires 0 <= y < h => seq(w, x requires 0 <= x < w => OpaqueAt(flat, w, h, x, y)))
  }

  // ---------- Painting a flat buffer in reading order ----------

  /** The cells before (py, px) already show `goal`, the others still `was`. */
  ghost predicate Progress<T>(now: seq<T>, width: nat, height: nat, was: Rows<T>, goal: Rows<T>, py: nat, px: nat)
    requires |was| == height && Wide(was, width) && |goal| == height && Wide(goal, width)
  {
    && |now| == At(0, width, height, 0)
    && forall y: nat, x: nat :: y < height && x < width ==>
         && At(0, width, y, x) < |now|
         && now[At(0, width, y, x)] == if y < py || (y == py && x < px) then goal[y][x] else was[y][x]
  }

  lemma ProgressStarts<T>(now: seq<T>, width: nat, height: nat, goal: Rows<T>)
    requires |now| == At(0, width, height, 0) && |goal| == height && Wide(goal, width)
    ensures Wide(RowsOf(now, width, height), width)
    ensures Progress(now, width, height, RowsOf(now, width, height), goal, 0, 0)
  {
    RowsAreWide(now, width, height);
    forall y: nat, x: nat | y < height && x < width
      ensures At(0, width, y, x) < |now| && now[At(0, width, y, x)] == RowsOf(now, width, height)[y][x]
    {
      RowCell(now, width, height, y, x);
    }
  }

  lemma ProgressPaints<T>(now: seq<T>, width: nat, height: nat, was: Rows<T>, goal: Rows<T>, py: nat, px: nat)
    requires |was| == height && Wide(was, width) && |goal| == height && Wide(goal, width)
    requires Progress(now, width, height, was, goal, py, px) && py < height && px < width
    ensures At(0, width, py, px) < |now|
    ensures Progress(now[At(0, width, py, px) := goal[py][px]], width, height, was, goal, py, px + 1)
  {
    hide At;
    var i := At(0, width, py, px);
    AtDiffers(0, width, py, px);
    var next := now[i := goal[py][px]];
    forall y: nat, x: nat | y < height && x < width
      ensures next[At(0, width, y, x)] == if y < py || (y == py && x < px + 1) then goal[y][x] else was[y][x]
    {
      if y != py || x != px {
        assert At(0, width, y, x) != i;
      }
    }
  }

  /** Cells that do not change may be passed over. */
  lemma ProgressSkips<T>(now: seq<T>, width: nat, height: nat, was: Rows<T>, goal: Rows<T>, py: nat, px: nat, py': nat, px': nat)
    requires |was| == height && Wide(was, width) && |goal| == height && Wide(goal, width)
    requires Progress(now, width, height, was, goal, py, px)
    requires forall y: nat, x: nat ::
               y < height && x < width && (py < y || (y == py && px <= x)) && (y < py' || (y == py' && x < px')) ==>
                 goal[y][x] == was[y][x]
    requires py < py' || (py == py' && px <= px')
    ensures Progress(now, width, height, was, goal, py', px')
  {
    hide At;
  }

  lemma ProgressEnds<T>(now: seq<T>, width: nat, height: nat, was: Rows<T>, goal: Rows<T>, py: nat)
    requires |was| == height && Wide(was, width) && |goal| == height && Wide(goal, width)
    requires py >= height && Progress(now, width, height, was, goal, py, 0)
    ensures RowsOf(now, width, height) == goal
  {
    hide At;
    RowsAreWide(now, width, height);
    forall y, x | 0 <= y < height && 0 <= x < width
      ensures RowsOf(now, width, height)[y][x] == goal[y][x]
    {
      RowCell(now, width, height, y, x);
    }
    SameRows(RowsOf(now, width, height), goal, width);
  }

  // ---------- Drawing ----------

  /** Row `y` of a picture after `p` has been painted over `r`. */
  function FilledRow(row: seq<Pixel>, y: nat, r: Rect, p: Pixel): seq<Pixel> {
    seq(|row|, x requires 0 <= x < |row| => if InRect(r, x, y) then p else row[x])
  }

  function Filled(c: Canvas, r: Rect, p: Pixel): (d: Canvas)
    ensures c.Valid() ==> d.Valid() && d.width == c.width && d.height == c.height
  {
    c.(rows := seq(|c.rows|, y requires 0 <= y < |c.rows| => FilledRow(c.rows[y], y, r, p)))
  }

  function BlittedRow(row: seq<Pixel>, y: nat, x0: nat, y0: nat, w: nat, src: Rows<Pixel>): seq<Pixel>
    requires Wide(src, w)
  {
    seq(|row|, x requires 0 <= x < |row| =>
      if InRect(Rect(x0, y0, w, |src|), x, y) then src[y - y0][x - x0] else row[x])
  }

  /** The rows of `src`, each `w` pixels long, painted with their corner at (x0, y0) and clipped to the picture. */
  function Blitted(c: Canvas, x0: nat, y0: nat, w: nat, src: Rows<Pixel>): (d: Canvas)
    requires Wide(src, w)
    ensures c.Valid() ==> d.Valid() && d.width == c.width && d.height == c.height
  {
    c.(rows := seq(|c.rows|, y requires 0 <= y < |c.rows| => BlittedRow(c.rows[y], y, x0, y0, w, src)))
  }

  const ABSENT := Pixel(0, 0, 0, 0)

  function Blank(width: nat, height: nat): (c: Canvas)
    ensures c.Valid()
  {
    Canvas(width, height, seq(height, y => seq(width, x => ABSENT)))
  }

  function PixelOr(c: Canvas, x: nat, y: nat): Pixel {
    if y < |c.rows| && x < |c.rows[y]| then c.rows[y][x] else ABSENT
  }

  function ExtractedRow(c: Canvas, r: Rect, y: nat): (row: seq<Pixel>)
    ensures |row| == r.w
  {
    seq(r.w, x requires 0 <= x < r.w => PixelOr(c, r.x + x, r.y + y))
  }

  /** The rectangle `r` of a picture, zeros standing in for what lies outside. */
  function Extracted(c: Canvas, r: Rect): (rows: Rows<Pixel>)
    ensures |rows| == r.h && Wide(rows, r.w)
  {
    seq(r.h, y requires 0 <= y < r.h => ExtractedRow(c, r, y))
  }

  // ---------- Counting pixels ----------

  /** How many of the `len` positions from `start` on lie below `limit`. */
  function Covered(start: nat, len: nat, limit: nat): (n: nat)
    ensures n <= len
  {
    if start >= limit then 0 else Min(len, limit - start)
  }

  /** The number of pixels of `r` that exist on the canvas. */
  function Visible(c: Canvas, r: Rect): nat {
    Covered(r.x, r.w, c.width) * Covered(r.y, r.h, c.height)
  }

  ghost function Meeting(c: Canvas, r: Rect): set<(nat, nat)> {
    set x: nat, y: nat | x < c.width && y < c.height && InRect(r, x, y) :: (x, y)
  }

  ghost function Block(x0: nat, y0: nat, w: nat, h: nat): set<(nat, nat)> {
    set x: nat, y: nat | x0 <= x < x0 + w && y0 <= y < y0 + h :: (x, y)
  }

  lemma {:induction false} RowSize(x0: nat, y: nat, w: nat)
    ensures |Block(x0, y, w, 1)| == w
  {
    if w > 0 {
      RowSize(x0, y, w - 1);
      assert Block(x0, y, w, 1) == Block(x0, y, w - 1, 1) + {(x0 + w - 1, y)};
      assert (x0 + w - 1, y) !in Block(x0, y, w - 1, 1);
    } else {
      assert Block(x0, y, w, 1) == {};
    }
  }

  lemma BlockSplit(x0: nat, y0: nat, w: nat, h: nat)
    requires h > 0
    ensures Block(x0, y0, w, h) == Block(x0, y0, w, h - 1) + Block(x0, y0 + h - 1, w, 1)
    ensures Block(x0, y0, w, h - 1) !! Block(x0, y0 + h - 1, w, 1)
  {
  }

  lemma {:induction false} BlockSize(x0: nat, y0: nat, w: nat, h: nat)
    ensures |Block(x0, y0, w, h)| == At(0, w, h, 0)
    decreases h
  {
    if h > 0 {
      BlockSplit(x0, y0, w, h);
      RowSize(x0, y0 + h - 1, w);
      hide Block;
      BlockSize(x0, y0, w, h - 1);
    } else {
      assert Block(x0, y0, w, h) == {};
    }
  }

  /** `Visible` is the size of the rectangle's intersection with the canvas. */
  lemma VisibleIsArea(c: Canvas, r: Rect)
    ensures Visible(c, r) == |Meeting(c, r)|
  {
    var w, h := Covered(r.x, r.w, c.width), Covered(r.y, r.h, c.height);
    BlockSize(r.x, r.y, w, h);
    AtIs(0, w, h, 0);
    assert Meeting(c, r) == Block(r.x, r.y, w, h);
  }

  // ---------- An ideal canvas without edges ----------

  ghost function AllVisible(c: Canvas, r: Rect): bool {
    forall x: nat, y: nat :: InRect(r, x, y) ==> x < c.width && y < c.height
  }

  /** No pixel of a rectangle is lost exactly when all of it lies on the canvas. */
  lemma NothingDropped(c: Canvas, r: Rect)
    ensures Visible(c, r) == r.w * r.h <==> AllVisible(c, r)
  {
    var w, h := Covered(r.x, r.w, c.width), Covered(r.y, r.h, c.height);
    Products(w, r.w, h, r.h);
    if r.w > 0 && r.h > 0 {
      if AllVisible(c, r) {
        assert InRect(r, r.x + r.w - 1, r.y + r.h - 1);
      }
    }
  }

  lemma Products(a: nat, a': nat, b: nat, b': nat)
    requires a <= a' && b <= b'
    ensures a * b <= a' * b'
    ensures a * b == a' * b' <==> (a == a' && b == b') || a' == 0 || b' == 0
  {
    assert a * b <= a' * b <= a' * b';
    if a < a' && b' > 0 {
      assert a * b <= a * b' < a' * b';
    } else if b < b' && a' > 0 {
      assert a * b <= a' * b < a' * b';
    }
  }
}
