/** Progressive regions (section 2.2.4.2.1.5 of MS-RDPEGFX): tables, tile blocks, and clipped compositing. */
module Regions {
  import opened Machine
  import opened Bytes
  import opened Pixels
  import opened Canvas
  import opened Quants
  import opened TileBlocks

  // ---------- Parsing ----------

  function ReadRects(data: seq<Byte>, p: nat, n: nat): (r: Option<(seq<Rect>, nat)>)
    ensures r.Some? ==> p <= r.value.1 && (p <= |data| ==> r.value.1 <= |data|)
    decreases n
  {
    if n == 0 then Some(([], p))
    else if p + 8 > |data| then None
    else
      var rect := Rect(Field16(data, p), Field16(data, p + 2), Field16(data, p + 4), Field16(data, p + 6));
      match ReadRects(data, p + 8, n - 1)
      case None => None
      case Some((more, end)) => Some(([rect] + more, end))
  }

  function ReadQuants(data: seq<Byte>, p: nat, n: nat): (r: Option<(seq<Quant>, nat)>)
    ensures r.Some? ==> p <= r.value.1 && (p <= |data| ==> r.value.1 <= |data|)
    ensures r.Some? ==> forall i :: 0 <= i < |r.value.0| ==> Nibbles(r.value.0[i])
    decreases n
  {
    if n == 0 then Some(([], p))
    else
      match ReadQuant(data, p)
      case None => None
      case Some((q, p1)) =>
        match ReadQuants(data, p1, n - 1)
        case None => None
        case Some((more, end)) => Some(([q] + more, end))
  }

  /** A progressive quality level: an informational byte and a table for each component. */
  function ReadProg(data: seq<Byte>, p: nat): (r: Option<(Three<Quant>, nat)>)
    ensures r.Some? ==> p < r.value.1 <= |data|
    ensures r.Some? ==> Nibbles(r.value.0.y) && Nibbles(r.value.0.cb) && Nibbles(r.value.0.cr)
  {
    match ReadQuant(data, p + 1)
    case None => None
    case Some((y, p1)) =>
      match ReadQuant(data, p1)
      case None => None
      case Some((cb, p2)) =>
        match ReadQuant(data, p2)
        case None => None
        case Some((cr, p3)) => Some((Three(y, cb, cr), p3))
  }

  function ReadProgs(data: seq<Byte>, p: nat, n: nat): (r: Option<(seq<Three<Quant>>, nat)>)
    ensures r.Some? ==> p <= r.value.1 && (p <= |data| ==> r.value.1 <= |data|)
    ensures r.Some? ==>
              forall i :: 0 <= i < |r.value.0| ==>
                Nibbles(r.value.0[i].y) && Nibbles(r.value.0[i].cb) && Nibbles(r.value.0[i].cr)
    decreases n
  {
    if n == 0 then Some(([], p))
    else
      match ReadProg(data, p)
      case None => None
      case Some((q, p1)) =>
        match ReadProgs(data, p1, n - 1)
        case None => None
        case Some((more, end)) => Some(([q] + more, end))
  }

  datatype Region = Region(rects: seq<Rect>, tables: Tables, tiles: seq<Byte>)

  const REGION_HEADER := 12

  function ReadRegion(body: seq<Byte>): (r: Option<Region>)
    ensures r.Some? ==> TablesValid(r.value.tables)
  {
    if |body| < REGION_HEADER || body[0] != TILE then None
    else
      match ReadRects(body, REGION_HEADER, Field16(body, 1))
      case None => None
      case Some((rects, p1)) =>
        match ReadQuants(body, p1, body[3])
        case None => None
        case Some((quants, p2)) =>
          match ReadProgs(body, p2, body[4])
          case None => None
          case Some((progs, p3)) =>
            match ReadBytes(body, p3, Le32(body[8], body[9], body[10], body[11]))
            case None => None
            case Some((tiles, _)) => Some(Region(rects, Tables(quants, progs, body[5] % 2 == 1), tiles))
  }

  // ---------- Tile blocks ----------

  const TILE_SIMPLE := 0xCCC5
  const TILE_FIRST := 0xCCC6
  const TILE_UPGRADE := 0xCCC7
  const BLOCK_HEADER := 6

  function DecodeBlock(base: Baseline, surface: U16, kind: U16, body: seq<Byte>, t: Tables): Outcome
    requires forall k :: k in base ==> base[k].Valid()
  {
    if kind == TILE_SIMPLE then DecodeTile(base, surface, body, false, t)
    else if kind == TILE_FIRST then DecodeTile(base, surface, body, true, t)
    else if kind == TILE_UPGRADE then DecodeUpgrade(base, surface, body, t)
    else Outcome(base, None, false)
  }

  lemma BlockIsAtomic(base: Baseline, surface: U16, kind: U16, body: seq<Byte>, t: Tables)
    requires AllValid(base)
    ensures var r := DecodeBlock(base, surface, kind, body, t);
            OnlyOwnEntry(base, surface, r, t.extrapolate) && AllValid(r.base)
  {
    hide DecodeTile, DecodeUpgrade, Render;
    TileIsAtomic(base, surface, body, false, t);
    TileIsAtomic(base, surface, body, true, t);
    UpgradeIsAtomic(base, surface, body, t);
  }

  /** The length a block claims, if the block fits. */
  function BlockLength(data: seq<Byte>, pos: nat): (r: Option<nat>)
    requires pos + BLOCK_HEADER <= |data|
    ensures r.Some? ==> BLOCK_HEADER <= r.value && pos + r.value <= |data|
  {
    var length := Le32(data[pos + 2], data[pos + 3], data[pos + 4], data[pos + 5]);
    if length < BLOCK_HEADER || pos + length > |data| then None else Some(length)
  }

  /** The state behind a tile stream, the pictures in the order they were decoded, and whether all went well. */
  datatype Run = Run(base: Baseline, pending: seq<Decoded>, ok: bool)

  function Prepend(o: Outcome, rest: Run): Run {
    Run(rest.base, (if o.pushed.Some? then [o.pushed.value] else []) + rest.pending, o.ok && rest.ok)
  }

  /** A tile that fails does not stop the ones behind it; a length that cannot be trusted does. */
  function DecodeTiles(base: Baseline, surface: U16, t: Tables, tiles: seq<Byte>, pos: nat): Run
    requires AllValid(base)
    decreases |tiles| - pos
  {
    if pos + BLOCK_HEADER > |tiles| then Run(base, [], true)
    else
      match BlockLength(tiles, pos)
      case None => Run(base, [], false)
      case Some(length) =>
        var o := DecodeBlock(base, surface, Field16(tiles, pos), tiles[pos + BLOCK_HEADER..pos + length], t);
        BlockIsAtomic(base, surface, Field16(tiles, pos), tiles[pos + BLOCK_HEADER..pos + length], t);
        Prepend(o, DecodeTiles(o.base, surface, t, tiles, pos + length))
  }

  /** The last picture for a grid position. */
  function LastFor(pending: seq<Decoded>, x: U16, y: U16): (i: Option<nat>)
    ensures i.Some? ==> i.value < |pending| && pending[i.value].x == x && pending[i.value].y == y
    ensures forall j :: (if i.Some? then i.value else -1) < j < |pending| ==> pending[j].x != x || pending[j].y != y
    decreases |pending|
  {
    if pending == [] then None
    else
      match LastFor(pending[1..], x, y)
      case Some(i) => Some(i + 1)
      case None => if pending[0].x == x && pending[0].y == y then Some(0) else None
  }

  /** The last picture decoded for a position shows the state stored there now, however often the position was decoded. */
  ghost predicate ShowsState(base: Baseline, surface: U16, r: Run, extrapolate: bool, x: U16, y: U16) {
    var key := Key(surface, x, y);
    match LastFor(r.pending, x, y)
    case Some(i) => key in r.base && r.pending[i].pixels == Render(r.base[key], extrapolate)
    case None => if key in base then key in r.base && r.base[key] == base[key] else key !in r.base
  }

  lemma {:induction false} LastPictureIsState(base: Baseline, surface: U16, t: Tables, tiles: seq<Byte>, pos: nat, x: U16, y: U16)
    requires AllValid(base)
    ensures ShowsState(base, surface, DecodeTiles(base, surface, t, tiles, pos), t.extrapolate, x, y)
    decreases |tiles| - pos
  {
    hide Render, DecodeBlock, BlockLength, Field16;
    if pos + BLOCK_HEADER <= |tiles| && BlockLength(tiles, pos).Some? {
      var length := BlockLength(tiles, pos).value;
      var kind, body := Field16(tiles, pos), tiles[pos + BLOCK_HEADER..pos + length];
      var o := DecodeBlock(base, surface, kind, body, t);
      BlockIsAtomic(base, surface, kind, body, t);
      var rest := DecodeTiles(o.base, surface, t, tiles, pos + length);
      LastPictureIsState(o.base, surface, t, tiles, pos + length, x, y);
      PrependShows(base, surface, o, rest, t.extrapolate, x, y);
    }
  }

  lemma LastOfMore(p: Decoded, pending: seq<Decoded>, x: U16, y: U16)
    ensures LastFor([p] + pending, x, y)
         == match LastFor(pending, x, y)
            case Some(i) => Some(i + 1)
            case None => if p.x == x && p.y == y then Some(0) else None
  {
    var all := [p] + pending;
    assert all[1..] == pending;
  }

  lemma PrependShows(base: Baseline, surface: U16, o: Outcome, rest: Run, extrapolate: bool, x: U16, y: U16)
    requires OnlyOwnEntry(base, surface, o, extrapolate) && ShowsState(o.base, surface, rest, extrapolate, x, y)
    ensures ShowsState(base, surface, Prepend(o, rest), extrapolate, x, y)
  {
    hide Render, LastFor;
    if o.pushed.Some? {
      LastOfMore(o.pushed.value, rest.pending, x, y);
    } else {
      assert [] + rest.pending == rest.pending;
    }
  }

  lemma {:induction false} TilesKeepOthers(base: Baseline, surface: U16, t: Tables, tiles: seq<Byte>, pos: nat)
    requires AllValid(base)
    ensures var r := DecodeTiles(base, surface, t, tiles, pos);
            && AllValid(r.base)
            && forall k: Key :: k.surface != surface ==> (k in r.base <==> k in base) && (k in base ==> r.base[k] == base[k])
    decreases |tiles| - pos
  {
    hide Render, DecodeBlock, BlockLength, Field16;
    if pos + BLOCK_HEADER <= |tiles| && BlockLength(tiles, pos).Some? {
      var length := BlockLength(tiles, pos).value;
      var kind, body := Field16(tiles, pos), tiles[pos + BLOCK_HEADER..pos + length];
      BlockIsAtomic(base, surface, kind, body, t);
      TilesKeepOthers(DecodeBlock(base, surface, kind, body, t).base, surface, t, tiles, pos + length);
    }
  }

  // ---------- Compositing ----------

  /** The cell of a tile in surface coordinates. */
  function Cell(d: Decoded, origin: (nat, nat)): Rect {
    Rect(origin.0 + d.x * TILE, origin.1 + d.y * TILE, TILE, TILE)
  }

  function Moved(r: Rect, origin: (nat, nat)): Rect {
    Rect(origin.0 + r.x, origin.1 + r.y, r.w, r.h)
  }

  /** The part two rectangles share. */
  function Meet(a: Rect, b: Rect): Option<Rect> {
    var x0, y0 := Max(a.x, b.x), Max(a.y, b.y);
    var x1, y1 := Min(a.x + a.w, b.x + b.w), Min(a.y + a.h, b.y + b.h);
    if x0 >= x1 || y0 >= y1 then None else Some(Rect(x0, y0, x1 - x0, y1 - y0))
  }

  lemma MeetIsBoth(a: Rect, b: Rect, x: nat, y: nat)
    ensures InRect(a, x, y) && InRect(b, x, y) <==> Meet(a, b).Some? && InRect(Meet(a, b).value, x, y)
    ensures Meet(a, b).Some? ==>
              var m := Meet(a, b).value;
              a.x <= m.x && m.x + m.w <= a.x + a.w && a.y <= m.y && m.y + m.h <= a.y + a.h && m.w > 0 && m.h > 0
  {
  }

  /** The part of a tile that is drawn into the rectangle `m` of its cell. */
  function SubRows(pixels: Rows<Pixel>, cell: Rect, m: Rect): (rows: Rows<Pixel>)
    requires |pixels| == cell.h && Wide(pixels, cell.w)
    requires cell.x <= m.x && m.x + m.w <= cell.x + cell.w && cell.y <= m.y && m.y + m.h <= cell.y + cell.h
    ensures |rows| == m.h && Wide(rows, m.w)
  {
    seq(m.h, y requires 0 <= y < m.h => pixels[m.y - cell.y + y][m.x - cell.x..m.x - cell.x + m.w])
  }

  ghost predicate Shaped(d: Decoded) {
    |d.pixels| == TILE && Wide(d.pixels, TILE)
  }

  function DrawInRect(c: Canvas, d: Decoded, rect: Rect, origin: (nat, nat)): (r: Canvas)
    requires Shaped(d)
    ensures c.Valid() ==> r.Valid() && r.width == c.width && r.height == c.height
  {
    var cell := Cell(d, origin);
    match Meet(cell, Moved(rect, origin))
    case None => c
    case Some(m) =>
      MeetIsBoth(cell, Moved(rect, origin), 0, 0);
      Blitted(c, m.x, m.y, m.w, SubRows(d.pixels, cell, m))
  }

  lemma DrawShows(c: Canvas, d: Decoded, rect: Rect, origin: (nat, nat), x: nat, y: nat)
    requires c.Valid() && Shaped(d) && x < c.width && y < c.height
    ensures DrawInRect(c, d, rect, origin).rows[y][x]
         == if InRect(Cell(d, origin), x, y) && InRect(Moved(rect, origin), x, y)
            then d.pixels[y - Cell(d, origin).y][x - Cell(d, origin).x] else c.rows[y][x]
  {
    hide Meet, Moved, Cell;
    var cell := Cell(d, origin);
    CellSize(d, origin);
    MeetIsBoth(cell, Moved(rect, origin), x, y);
  }

  lemma CellSize(d: Decoded, origin: (nat, nat))
    ensures Cell(d, origin).w == TILE && Cell(d, origin).h == TILE
  {
  }

  function DrawInRects(c: Canvas, d: Decoded, rects: seq<Rect>, origin: (nat, nat)): (r: Canvas)
    requires Shaped(d)
    ensures c.Valid() ==> r.Valid() && r.width == c.width && r.height == c.height
    decreases |rects|
  {
    if rects == [] then c else DrawInRects(DrawInRect(c, d, rects[0], origin), d, rects[1..], origin)
  }

  ghost predicate InSome(rects: seq<Rect>, origin: (nat, nat), x: nat, y: nat) {
    exists i :: 0 <= i < |rects| && InRect(Moved(rects[i], origin), x, y)
  }

  lemma {:induction false} DrawInRectsShows(c: Canvas, d: Decoded, rects: seq<Rect>, origin: (nat, nat), x: nat, y: nat)
    requires c.Valid() && Shaped(d) && x < c.width && y < c.height
    ensures DrawInRects(c, d, rects, origin).rows[y][x]
         == if InRect(Cell(d, origin), x, y) && InSome(rects, origin, x, y)
            then d.pixels[y - Cell(d, origin).y][x - Cell(d, origin).x] else c.rows[y][x]
    decreases |rects|
  {
    hide DrawInRect, Cell, Moved;
    if rects != [] {
      DrawShows(c, d, rects[0], origin, x, y);
      DrawInRectsShows(DrawInRect(c, d, rects[0], origin), d, rects[1..], origin, x, y);
      SomeSplit(rects, origin, x, y);
    }
  }

  lemma SomeSplit(rects: seq<Rect>, origin: (nat, nat), x: nat, y: nat)
    requires rects != []
    ensures InSome(rects, origin, x, y) <==> InRect(Moved(rects[0], origin), x, y) || InSome(rects[1..], origin, x, y)
  {
    var rest := rects[1..];
    assert forall i :: 0 <= i < |rest| ==> rest[i] == rects[i + 1];
    if InSome(rects, origin, x, y) {
      var i :| 0 <= i < |rects| && InRect(Moved(rects[i], origin), x, y);
      if i > 0 {
        assert rest[i - 1] == rects[i];
      }
    }
  }

  /** A tile wholly outside the surface is rejected, not clamped. */
  predicate Rejected(c: Canvas, d: Decoded, origin: (nat, nat)) {
    Cell(d, origin).x >= c.width || Cell(d, origin).y >= c.height
  }

  function Composite(c: Canvas, pending: seq<Decoded>, rects: seq<Rect>, origin: (nat, nat)): (r: Canvas)
    requires AllShaped(pending)
    ensures c.Valid() ==> r.Valid() && r.width == c.width && r.height == c.height
    decreases |pending|
  {
    if pending == [] then c
    else
      var d := pending[0];
      Composite(if Rejected(c, d, origin) then c else DrawInRects(c, d, rects, origin), pending[1..], rects, origin)
  }

  /** The last tile whose cell holds (x, y). */
  function LastIn(pending: seq<Decoded>, origin: (nat, nat), x: nat, y: nat): (i: Option<nat>)
    ensures i.Some? ==> i.value < |pending| && InRect(Cell(pending[i.value], origin), x, y)
    ensures forall j :: (if i.Some? then i.value else -1) < j < |pending| ==> !InRect(Cell(pending[j], origin), x, y)
    decreases |pending|
  {
    if pending == [] then None
    else
      match LastIn(pending[1..], origin, x, y)
      case Some(i) => Some(i + 1)
      case None => if InRect(Cell(pending[0], origin), x, y) then Some(0) else None
  }

  /** A pixel takes the colour of the last tile over it if some rectangle declares it, and stays as it was otherwise. */
  lemma {:induction false} CompositeShows(c: Canvas, pending: seq<Decoded>, rects: seq<Rect>, origin: (nat, nat), x: nat, y: nat)
    requires c.Valid() && x < c.width && y < c.height && AllShaped(pending)
    ensures Composite(c, pending, rects, origin).rows[y][x]
         == match LastIn(pending, origin, x, y)
            case Some(i) =>
              if InSome(rects, origin, x, y) then pending[i].pixels[y - Cell(pending[i], origin).y][x - Cell(pending[i], origin).x]
              else c.rows[y][x]
            case None => c.rows[y][x]
    decreases |pending|
  {
    hide DrawInRects, Cell, InSome;
    if pending != [] {
      var d := pending[0];
      DrawInRectsShows(c, d, rects, origin, x, y);
      CompositeShows(if Rejected(c, d, origin) then c else DrawInRects(c, d, rects, origin), pending[1..], rects, origin, x, y);
    }
  }

  /** Rectangles that declare the same pixels give the same picture: their order and repetition do not matter. */
  lemma RectOrderIsIrrelevant(c: Canvas, pending: seq<Decoded>, rects: seq<Rect>, rects': seq<Rect>, origin: (nat, nat))
    requires c.Valid() && AllShaped(pending)
    requires forall r :: r in rects <==> r in rects'
    ensures Composite(c, pending, rects, origin) == Composite(c, pending, rects', origin)
  {
    hide Composite, LastIn, Cell;
    var a, b := Composite(c, pending, rects, origin), Composite(c, pending, rects', origin);
    forall y, x | 0 <= y < c.height && 0 <= x < c.width
      ensures a.rows[y][x] == b.rows[y][x]
    {
      CompositeShows(c, pending, rects, origin, x, y);
      CompositeShows(c, pending, rects', origin, x, y);
      SameDeclared(rects, rects', origin, x, y);
      SameDeclared(rects', rects, origin, x, y);
    }
    SameRows(a.rows, b.rows, c.width);
  }

  lemma SameDeclared(rects: seq<Rect>, rects': seq<Rect>, origin: (nat, nat), x: nat, y: nat)
    requires forall r :: r in rects ==> r in rects'
    ensures InSome(rects, origin, x, y) ==> InSome(rects', origin, x, y)
  {
    if InSome(rects, origin, x, y) {
      var i :| 0 <= i < |rects| && InRect(Moved(rects[i], origin), x, y);
      assert rects[i] in rects;
      var j :| 0 <= j < |rects'| && rects'[j] == rects[i];
    }
  }

  // ---------- A whole region ----------

  /** Pixels of a tile that a rectangle declares but the surface does not have. */
  function LostInRect(c: Canvas, d: Decoded, rect: Rect, origin: (nat, nat)): nat {
    match Meet(Cell(d, origin), Moved(rect, origin))
    case None => 0
    case Some(m) => Max(0, m.w * m.h - Visible(c, m))
  }

  function LostInRects(c: Canvas, d: Decoded, rects: seq<Rect>, origin: (nat, nat)): nat {
    if rects == [] then 0 else LostInRect(c, d, rects[0], origin) + LostInRects(c, d, rects[1..], origin)
  }

  /** Pixels clipped away from the tiles that are not rejected. */
  function Lost(c: Canvas, pending: seq<Decoded>, rects: seq<Rect>, origin: (nat, nat)): nat {
    if pending == [] then 0
    else (if Rejected(c, pending[0], origin) then 0 else LostInRects(c, pending[0], rects, origin))
         + Lost(c, pending[1..], rects, origin)
  }

  function RejectedCount(c: Canvas, pending: seq<Decoded>, origin: (nat, nat)): nat {
    if pending == [] then 0
    else (if Rejected(c, pending[0], origin) then 1 else 0) + RejectedCount(c, pending[1..], origin)
  }

  /** No pixel is lost exactly when every declared pixel of every accepted tile lies on the surface. */
  lemma LostInRectIs(c: Canvas, d: Decoded, rect: Rect, origin: (nat, nat))
    ensures LostInRect(c, d, rect, origin) == 0 <==>
            forall x: nat, y: nat :: InRect(Cell(d, origin), x, y) && InRect(Moved(rect, origin), x, y) ==> x < c.width && y < c.height
  {
    hide Meet, Cell, Moved;
    var a, b := Cell(d, origin), Moved(rect, origin);
    forall x: nat, y: nat
      ensures InRect(a, x, y) && InRect(b, x, y) <==> Meet(a, b).Some? && InRect(Meet(a, b).value, x, y)
    {
      MeetIsBoth(a, b, x, y);
    }
    if Meet(a, b).Some? {
      var m := Meet(a, b).value;
      NothingDropped(c, m);
      Products(Covered(m.x, m.w, c.width), m.w, Covered(m.y, m.h, c.height), m.h);
    }
  }

  /** The tile states and the surface behind a region, and whether everything in it could be applied. */
  datatype Shown = Shown(base: Baseline, canvas: Canvas, ok: bool)

  lemma {:induction false} PendingIsShaped(base: Baseline, surface: U16, t: Tables, tiles: seq<Byte>, pos: nat)
    requires AllValid(base)
    ensures AllShaped(DecodeTiles(base, surface, t, tiles, pos).pending)
    decreases |tiles| - pos
  {
    hide Render, DecodeBlock, BlockLength, Field16;
    if pos + BLOCK_HEADER <= |tiles| && BlockLength(tiles, pos).Some? {
      var length := BlockLength(tiles, pos).value;
      var kind, body := Field16(tiles, pos), tiles[pos + BLOCK_HEADER..pos + length];
      BlockIsAtomic(base, surface, kind, body, t);
      var o := DecodeBlock(base, surface, kind, body, t);
      var rest := DecodeTiles(o.base, surface, t, tiles, pos + length);
      PendingIsShaped(o.base, surface, t, tiles, pos + length);
      PrependShaped(o, rest);
    }
  }

  lemma PrependShaped(o: Outcome, rest: Run)
    requires AllShaped(rest.pending) && (o.pushed.Some? ==> Shaped(o.pushed.value))
    ensures AllShaped(Prepend(o, rest).pending)
  {
  }

  ghost predicate AllShaped(pending: seq<Decoded>) {
    forall i :: 0 <= i < |pending| ==> Shaped(pending[i])
  }

  function ShowRegion(base: Baseline, surface: U16, r: Region, c: Canvas, origin: (nat, nat)): (s: Shown)
    requires AllValid(base)
    ensures AllValid(s.base)
    ensures c.Valid() ==> s.canvas.Valid() && s.canvas.width == c.width && s.canvas.height == c.height
  {
    var run := DecodeTiles(base, surface, r.tables, r.tiles, 0);
    TilesKeepOthers(base, surface, r.tables, r.tiles, 0);
    PendingIsShaped(base, surface, r.tables, r.tiles, 0);
    Shown(run.base, Composite(c, run.pending, r.rects, origin),
          run.ok && Lost(c, run.pending, r.rects, origin) == 0 && RejectedCount(c, run.pending, origin) == 0)
  }

  function DecodeRegion(base: Baseline, surface: U16, body: seq<Byte>, c: Canvas, origin: (nat, nat)): (s: Shown)
    requires AllValid(base)
    ensures AllValid(s.base)
    ensures c.Valid() ==> s.canvas.Valid() && s.canvas.width == c.width && s.canvas.height == c.height
  {
    match ReadRegion(body)
    case None => Shown(base, c, false)
    case Some(r) => ShowRegion(base, surface, r, c, origin)
  }

  /** The tiles of a region that produced a picture, in order. */
  function PendingOf(base: Baseline, surface: U16, r: Region): seq<Decoded>
    requires AllValid(base)
  {
    DecodeTiles(base, surface, r.tables, r.tiles, 0).pending
  }

  /**
   At the end of a region every declared pixel in the cell of a tile that produced a picture
   shows what is stored for that tile now, even if the cell was decoded several times or a later
   block for it failed; every other pixel is as it was.
   */
  lemma PictureIsState(base: Baseline, surface: U16, r: Region, c: Canvas, origin: (nat, nat), x: nat, y: nat)
    requires AllValid(base) && c.Valid() && x < c.width && y < c.height
    ensures var s, pending := ShowRegion(base, surface, r, c, origin), PendingOf(base, surface, r);
            match LastIn(pending, origin, x, y)
            case Some(i) =>
              var key, cell := Key(surface, pending[i].x, pending[i].y), Cell(pending[i], origin);
              && key in s.base
              && s.canvas.rows[y][x] ==
                 (if InSome(r.rects, origin, x, y) then Render(s.base[key], r.tables.extrapolate)[y - cell.y][x - cell.x]
                  else c.rows[y][x])
            case None => s.canvas.rows[y][x] == c.rows[y][x]
  {
    hide DecodeTiles, Composite, Cell, InSome, Render, Lost, RejectedCount, LastIn, LastFor;
    var run := DecodeTiles(base, surface, r.tables, r.tiles, 0);
    PendingIsShaped(base, surface, r.tables, r.tiles, 0);
    CompositeShows(c, run.pending, r.rects, origin, x, y);
    match LastIn(run.pending, origin, x, y)
    case None =>
    case Some(i) =>
      var d := run.pending[i];
      LastInIsLastFor(run.pending, origin, x, y, i);
      LastPictureIsState(base, surface, r.tables, r.tiles, 0, d.x, d.y);
  }

  lemma LastInIsLastFor(pending: seq<Decoded>, origin: (nat, nat), x: nat, y: nat, i: nat)
    requires LastIn(pending, origin, x, y) == Some(i)
    ensures i < |pending| && LastFor(pending, pending[i].x, pending[i].y) == Some(i)
  {
    hide Cell, LastIn, LastFor;
    var d := pending[i];
    forall j | i < j < |pending|
      ensures pending[j].x != d.x || pending[j].y != d.y
    {
      SamePlace(pending[j], d, origin);
    }
    var last := LastFor(pending, d.x, d.y);
  }

  lemma SamePlace(a: Decoded, b: Decoded, origin: (nat, nat))
    ensures a.x == b.x && a.y == b.y ==> Cell(a, origin) == Cell(b, origin)
  {
  }

  // ---------- A whole bitstream ----------

  const REGION := 0xCCC4

  /** Regions one after another; blocks of other kinds are skipped, and so is a tail too short for a block. */
  function DecodeStream(base: Baseline, surface: U16, data: seq<Byte>, pos: nat, c: Canvas, origin: (nat, nat)): (s: Shown)
    requires AllValid(base)
    ensures AllValid(s.base)
    ensures c.Valid() ==> s.canvas.Valid() && s.canvas.width == c.width && s.canvas.height == c.height
    decreases |data| - pos
  {
    if pos + BLOCK_HEADER > |data| then Shown(base, c, true)
    else
      match BlockLength(data, pos)
      case None => Shown(base, c, false)
      case Some(length) =>
        if Field16(data, pos) != REGION then DecodeStream(base, surface, data, pos + length, c, origin)
        else
          var first := DecodeRegion(base, surface, data[pos + BLOCK_HEADER..pos + length], c, origin);
          var rest := DecodeStream(first.base, surface, data, pos + length, first.canvas, origin);
          rest.(ok := first.ok && rest.ok)
  }

  // ---------- Surfaces do not interfere ----------

  /** The tile states of one surface. */
  function Only(base: Baseline, surface: U16): (r: Baseline)
    ensures AllValid(base) ==> AllValid(r)
  {
    map k | k in base && k.surface == surface :: base[k]
  }

  function Without(base: Baseline, surface: U16): (r: Baseline)
    ensures AllValid(base) ==> AllValid(r)
  {
    map k | k in base && k.surface != surface :: base[k]
  }

  /** Everything a stream does to a surface follows from that surface's own tile states, and nothing else changes. */
  lemma {:induction false} StreamIsLocal(base: Baseline, surface: U16, data: seq<Byte>, pos: nat, c: Canvas, origin: (nat, nat))
    requires AllValid(base)
    ensures var s := DecodeStream(base, surface, data, pos, c, origin);
            var own := DecodeStream(Only(base, surface), surface, data, pos, c, origin);
            && s.canvas == own.canvas && s.ok == own.ok && Only(s.base, surface) == own.base
            && forall other: U16 :: other != surface ==> Only(s.base, other) == Only(base, other)
    decreases |data| - pos
  {
    hide DecodeRegion, BlockLength, Field16;
    if pos + BLOCK_HEADER <= |data| && BlockLength(data, pos).Some? {
      var length := BlockLength(data, pos).value;
      if Field16(data, pos) == REGION {
        var body := data[pos + BLOCK_HEADER..pos + length];
        RegionIsLocal(base, surface, body, c, origin);
        var first := DecodeRegion(base, surface, body, c, origin);
        StreamIsLocal(first.base, surface, data, pos + length, first.canvas, origin);
      } else {
        StreamIsLocal(base, surface, data, pos + length, c, origin);
      }
    }
  }

  lemma RegionIsLocal(base: Baseline, surface: U16, body: seq<Byte>, c: Canvas, origin: (nat, nat))
    requires AllValid(base)
    ensures var s := DecodeRegion(base, surface, body, c, origin);
            var own := DecodeRegion(Only(base, surface), surface, body, c, origin);
            && s.canvas == own.canvas && s.ok == own.ok && Only(s.base, surface) == own.base
            && forall other: U16 :: other != surface ==> Only(s.base, other) == Only(base, other)
  {
    hide DecodeTiles, Composite, Lost, RejectedCount, ReadRegion;
    match ReadRegion(body)
    case None =>
    case Some(r) =>
      TilesAreLocal(base, surface, r.tables, r.tiles, 0);
      TilesKeepOthers(base, surface, r.tables, r.tiles, 0);
  }

  lemma {:induction false} TilesAreLocal(base: Baseline, surface: U16, t: Tables, tiles: seq<Byte>, pos: nat)
    requires AllValid(base)
    ensures var r, own := DecodeTiles(base, surface, t, tiles, pos), DecodeTiles(Only(base, surface), surface, t, tiles, pos);
            r.pending == own.pending && r.ok == own.ok && Only(r.base, surface) == own.base
    decreases |tiles| - pos
  {
    hide DecodeBlock, BlockLength, Field16;
    if pos + BLOCK_HEADER <= |tiles| && BlockLength(tiles, pos).Some? {
      var length := BlockLength(tiles, pos).value;
      var kind, body := Field16(tiles, pos), tiles[pos + BLOCK_HEADER..pos + length];
      BlockIsLocal(base, surface, kind, body, t);
      BlockIsAtomic(base, surface, kind, body, t);
      TilesAreLocal(DecodeBlock(base, surface, kind, body, t).base, surface, t, tiles, pos + length);
    }
  }

  lemma BlockIsLocal(base: Baseline, surface: U16, kind: U16, body: seq<Byte>, t: Tables)
    requires AllValid(base)
    ensures var o, own := DecodeBlock(base, surface, kind, body, t), DecodeBlock(Only(base, surface), surface, kind, body, t);
            o.pushed == own.pushed && o.ok == own.ok && Only(o.base, surface) == own.base
  {
    hide ReadTile, ReadUpgrade, BitPositions, FirstState, DifferedState, UpgradedState, MayUpgradeAll, Render;
    TileIsLocal(base, surface, body, false, t);
    TileIsLocal(base, surface, body, true, t);
    UpgradeIsLocal(base, surface, body, t);
    hide DecodeTile, DecodeUpgrade;
  }

  lemma StoreIsLocal(base: Baseline, key: Key, s: TileState)
    ensures Only(base[key := s], key.surface) == Only(base, key.surface)[key := s]
  {
  }

  lemma TileIsLocal(base: Baseline, surface: U16, body: seq<Byte>, first: bool, t: Tables)
    requires AllValid(base)
    ensures var o, own := DecodeTile(base, surface, body, first, t), DecodeTile(Only(base, surface), surface, body, first, t);
            o.pushed == own.pushed && o.ok == own.ok && Only(o.base, surface) == own.base
  {
    hide ReadTile, BitPositions, FirstState, DifferedState, ShiftsExist, Render;
    var o := DecodeTile(base, surface, body, first, t);
    if o.pushed.Some? {
      TileIsAtomic(base, surface, body, first, t);
      var key := Key(surface, o.pushed.value.x, o.pushed.value.y);
      StoreIsLocal(base, key, o.base[key]);
    }
  }

  lemma UpgradeIsLocal(base: Baseline, surface: U16, body: seq<Byte>, t: Tables)
    requires AllValid(base)
    ensures var o, own := DecodeUpgrade(base, surface, body, t), DecodeUpgrade(Only(base, surface), surface, body, t);
            o.pushed == own.pushed && o.ok == own.ok && Only(o.base, surface) == own.base
  {
    hide ReadUpgrade, BitPositions, UpgradedState, MayUpgradeAll, Render;
    var o := DecodeUpgrade(base, surface, body, t);
    if o.pushed.Some? {
      UpgradeIsAtomic(base, surface, body, t);
      var key := Key(surface, o.pushed.value.x, o.pushed.value.y);
      StoreIsLocal(base, key, o.base[key]);
    }
  }

  /** What is stored does not depend on what the surface showed. */
  lemma {:induction false} StreamIgnoresCanvas(base: Baseline, surface: U16, data: seq<Byte>, pos: nat, c: Canvas, c': Canvas, origin: (nat, nat))
    requires AllValid(base)
    ensures DecodeStream(base, surface, data, pos, c, origin).base == DecodeStream(base, surface, data, pos, c', origin).base
    decreases |data| - pos
  {
    hide BlockLength, Field16, ReadRegion, DecodeTiles, Composite, Lost, RejectedCount;
    if pos + BLOCK_HEADER <= |data| && BlockLength(data, pos).Some? {
      var end := pos + BlockLength(data, pos).value;
      if Field16(data, pos) == REGION {
        var body := data[pos + BLOCK_HEADER..end];
        var a, b := DecodeRegion(base, surface, body, c, origin), DecodeRegion(base, surface, body, c', origin);
        assert a.base == b.base;
        StreamIgnoresCanvas(a.base, surface, data, end, a.canvas, b.canvas, origin);
      } else {
        StreamIgnoresCanvas(base, surface, data, end, c, c', origin);
      }
    }
  }
}
