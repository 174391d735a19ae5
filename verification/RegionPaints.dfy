/** What a Progressive bitstream means apart from the surface it is drawn on: tile states and a list of pictures. */
module RegionPaints {
  import opened Machine
  import opened Canvas
  import opened Paints
  import opened TileBlocks
  import opened Regions

  /** New tile states, the corners of the tiles that were decoded, what to paint, and whether every block decoded. */
  datatype Update = Update(base: Baseline, corners: seq<(nat, nat)>, paints: seq<Paint>, ok: bool)

  /** No tile is rejected and no declared pixel of any tile is clipped away. */
  ghost predicate Fits(c: Canvas, u: Update, origin: (nat, nat)) {
    && (forall k :: k in u.corners ==> origin.0 + k.0 < c.width && origin.1 + k.1 < c.height)
    && (forall p :: p in u.paints ==> AllVisible(c, Area(PaintAt(p, origin))))
  }

  // ---------- Tiles ----------

  const HERE := (0, 0)

  /** The part of a tile that a rectangle declares. */
  function PaintsInRect(d: Decoded, rect: Rect): seq<Paint>
    requires Shaped(d)
  {
    match Meet(Cell(d, HERE), rect)
    case None => []
    case Some(m) =>
      MeetIsBoth(Cell(d, HERE), rect, 0, 0);
      [Paint(m.x, m.y, Canvas(m.w, m.h, SubRows(d.pixels, Cell(d, HERE), m)))]
  }

  function PaintsInRects(d: Decoded, rects: seq<Rect>): seq<Paint>
    requires Shaped(d)
    decreases |rects|
  {
    if rects == [] then [] else PaintsInRect(d, rects[0]) + PaintsInRects(d, rects[1..])
  }

  function PaintsOf(pending: seq<Decoded>, rects: seq<Rect>): seq<Paint>
    requires AllShaped(pending)
    decreases |pending|
  {
    if pending == [] then [] else PaintsInRects(pending[0], rects) + PaintsOf(pending[1..], rects)
  }

  function CornersOf(pending: seq<Decoded>): seq<(nat, nat)>
    decreases |pending|
  {
    if pending == [] then [] else [(pending[0].x * TILE, pending[0].y * TILE)] + CornersOf(pending[1..])
  }

  lemma MeetMoves(d: Decoded, rect: Rect, origin: (nat, nat))
    ensures Meet(Cell(d, origin), Moved(rect, origin)) ==
            match Meet(Cell(d, HERE), rect)
            case None => None
            case Some(m) => Some(Moved(m, origin))
  {
  }

  lemma RectIsPaint(c: Image, d: Decoded, rect: Rect, origin: (nat, nat))
    requires Shaped(d)
    ensures DrawInRect(c, d, rect, origin) == PaintAll(c, AllAt(PaintsInRect(d, rect), origin))
  {
    hide Meet, Blitted;
    MeetMoves(d, rect, origin);
    MeetIsBoth(Cell(d, HERE), rect, 0, 0);
    match Meet(Cell(d, HERE), rect)
    case None =>
    case Some(m) =>
      assert SubRows(d.pixels, Cell(d, origin), Moved(m, origin)) == SubRows(d.pixels, Cell(d, HERE), m);
      var ps := PaintsInRect(d, rect);
      assert AllAt(ps, origin) == [PaintAt(ps[0], origin)];
  }

  lemma {:induction false} RectsArePaints(c: Image, d: Decoded, rects: seq<Rect>, origin: (nat, nat))
    requires Shaped(d)
    ensures DrawInRects(c, d, rects, origin) == PaintAll(c, AllAt(PaintsInRects(d, rects), origin))
    decreases |rects|
  {
    hide PaintsInRect, DrawInRect, AllAt, PaintAll;
    if rects == [] {
      NothingAt(c, origin);
    } else {
      var first, rest := PaintsInRect(d, rects[0]), PaintsInRects(d, rects[1..]);
      RectIsPaint(c, d, rects[0], origin);
      RectsArePaints(DrawInRect(c, d, rects[0], origin), d, rects[1..], origin);
      AllAtJoins(first, rest, origin);
      PaintAllJoins(c, AllAt(first, origin), AllAt(rest, origin));
    }
  }

  lemma NothingAt(c: Image, origin: (nat, nat))
    ensures PaintAll(c, AllAt([], origin)) == c
  {
  }

  /** Whatever is painted of a tile lies in its cell. */
  lemma {:induction false} PaintsAreInCell(d: Decoded, rects: seq<Rect>)
    requires Shaped(d)
    ensures forall p :: p in PaintsInRects(d, rects) ==> p.x >= d.x * TILE && p.y >= d.y * TILE
    decreases |rects|
  {
    if rects != [] {
      MeetIsBoth(Cell(d, HERE), rects[0], 0, 0);
      hide Meet;
      PaintsAreInCell(d, rects[1..]);
    }
  }

  lemma RejectedIsKept(c: Image, d: Decoded, rects: seq<Rect>, origin: (nat, nat))
    requires Shaped(d) && Rejected(c, d, origin)
    ensures PaintAll(c, AllAt(PaintsInRects(d, rects), origin)) == c
  {
    hide PaintsInRects, PaintAll;
    PaintsAreInCell(d, rects);
    var ps := PaintsInRects(d, rects);
    forall p | p in AllAt(ps, origin)
      ensures p.x >= c.width || p.y >= c.height
    {
      var i :| 0 <= i < |ps| && AllAt(ps, origin)[i] == p;
      assert ps[i] in ps;
    }
    AllOutsideIsKept(c, AllAt(ps, origin));
  }

  lemma {:induction false} TilesArePaints(c: Image, pending: seq<Decoded>, rects: seq<Rect>, origin: (nat, nat))
    requires AllShaped(pending)
    ensures Composite(c, pending, rects, origin) == PaintAll(c, AllAt(PaintsOf(pending, rects), origin))
    decreases |pending|
  {
    hide PaintsInRects, DrawInRects, AllAt, PaintAll, Rejected;
    if pending == [] {
      NothingAt(c, origin);
    } else {
      var d := pending[0];
      var first, rest := PaintsInRects(d, rects), PaintsOf(pending[1..], rects);
      var next: Image := PaintAll(c, AllAt(first, origin));
      if Rejected(c, d, origin) {
        RejectedIsKept(c, d, rects, origin);
      } else {
        RectsArePaints(c, d, rects, origin);
      }
      TilesArePaints(next, pending[1..], rects, origin);
      AllAtJoins(first, rest, origin);
      PaintAllJoins(c, AllAt(first, origin), AllAt(rest, origin));
    }
  }

  // ---------- What is lost ----------

  ghost predicate AllOn(c: Canvas, ps: seq<Paint>, origin: (nat, nat)) {
    forall p :: p in ps ==> AllVisible(c, Area(PaintAt(p, origin)))
  }

  ghost predicate CornersOn(c: Canvas, corners: seq<(nat, nat)>, origin: (nat, nat)) {
    forall k :: k in corners ==> origin.0 + k.0 < c.width && origin.1 + k.1 < c.height
  }

  lemma RectLosesNothing(c: Canvas, d: Decoded, rect: Rect, origin: (nat, nat))
    requires Shaped(d)
    ensures LostInRect(c, d, rect, origin) == 0 <==> AllOn(c, PaintsInRect(d, rect), origin)
  {
    hide Meet, Cell, SubRows, AllVisible, Visible;
    MeetMoves(d, rect, origin);
    match Meet(Cell(d, HERE), rect)
    case None =>
    case Some(m) =>
      NothingDropped(c, Moved(m, origin));
      VisibleAtMost(c, Moved(m, origin));
      var ps := PaintsInRect(d, rect);
      assert ps[0] in ps && Area(PaintAt(ps[0], origin)) == Moved(m, origin);
  }

  lemma VisibleAtMost(c: Canvas, r: Rect)
    ensures Visible(c, r) <= r.w * r.h
  {
    Products(Covered(r.x, r.w, c.width), r.w, Covered(r.y, r.h, c.height), r.h);
  }

  lemma {:induction false} RectsLoseNothing(c: Canvas, d: Decoded, rects: seq<Rect>, origin: (nat, nat))
    requires Shaped(d)
    ensures LostInRects(c, d, rects, origin) == 0 <==> AllOn(c, PaintsInRects(d, rects), origin)
    decreases |rects|
  {
    hide LostInRect, PaintsInRect, AllVisible, PaintAt, Area;
    if rects != [] {
      RectLosesNothing(c, d, rects[0], origin);
      RectsLoseNothing(c, d, rects[1..], origin);
    }
  }

  /** The client's two counts are zero exactly when nothing is rejected and nothing clipped. */
  lemma {:induction false} TilesLoseNothing(c: Canvas, pending: seq<Decoded>, rects: seq<Rect>, origin: (nat, nat))
    requires AllShaped(pending)
    ensures RejectedCount(c, pending, origin) == 0 <==> CornersOn(c, CornersOf(pending), origin)
    ensures Lost(c, pending, rects, origin) == 0 && RejectedCount(c, pending, origin) == 0 <==>
            AllOn(c, PaintsOf(pending, rects), origin) && CornersOn(c, CornersOf(pending), origin)
    decreases |pending|
  {
    hide LostInRects, PaintsInRects, AllVisible, PaintAt, Area;
    if pending != [] {
      RectsLoseNothing(c, pending[0], rects, origin);
      TilesLoseNothing(c, pending[1..], rects, origin);
    }
  }

  /** Each declared pixel of the cell is on the surface. */
  ghost predicate DeclaredOn(c: Canvas, cell: Rect, rects: seq<Rect>, origin: (nat, nat)) {
    forall x: nat, y: nat :: InRect(cell, x, y) && InSome(rects, origin, x, y) ==> x < c.width && y < c.height
  }

  lemma RectDeclares(c: Canvas, d: Decoded, rect: Rect, origin: (nat, nat), x: nat, y: nat)
    requires Shaped(d) && AllOn(c, PaintsInRect(d, rect), origin)
    requires InRect(Cell(d, origin), x, y) && InRect(Moved(rect, origin), x, y)
    ensures x < c.width && y < c.height
  {
    hide SubRows;
    MeetMoves(d, rect, origin);
    MeetIsBoth(Cell(d, origin), Moved(rect, origin), x, y);
    hide Meet, Cell;
    var ps := PaintsInRect(d, rect);
    assert ps[0] in ps;
    assert InRect(Area(PaintAt(ps[0], origin)), x, y);
  }

  lemma RectIsDeclared(c: Canvas, d: Decoded, rect: Rect, origin: (nat, nat))
    requires Shaped(d)
    requires forall x: nat, y: nat :: InRect(Cell(d, origin), x, y) && InRect(Moved(rect, origin), x, y) ==> x < c.width && y < c.height
    ensures AllOn(c, PaintsInRect(d, rect), origin)
  {
    hide SubRows, Meet, Cell, Moved;
    MeetMoves(d, rect, origin);
    forall p | p in PaintsInRect(d, rect)
      ensures AllVisible(c, Area(PaintAt(p, origin)))
    {
      MovedIs(Meet(Cell(d, HERE), rect).value, origin);
      forall x: nat, y: nat | InRect(Area(PaintAt(p, origin)), x, y)
        ensures x < c.width && y < c.height
      {
        MeetIsBoth(Cell(d, origin), Moved(rect, origin), x, y);
      }
    }
  }

  lemma MovedIs(r: Rect, origin: (nat, nat))
    ensures Moved(r, origin) == Rect(origin.0 + r.x, origin.1 + r.y, r.w, r.h)
  {
  }

  /** Nothing of a tile is clipped exactly when each of its declared pixels is on the surface. */
  lemma {:induction false} RectsDeclare(c: Canvas, d: Decoded, rects: seq<Rect>, origin: (nat, nat))
    requires Shaped(d)
    ensures AllOn(c, PaintsInRects(d, rects), origin) <==> DeclaredOn(c, Cell(d, origin), rects, origin)
    decreases |rects|
  {
    hide PaintsInRect, Cell, Moved, InSome, AllVisible, Area, PaintAt;
    if rects == [] {
      NoneDeclared(c, Cell(d, origin), origin);
    } else {
      RectsDeclare(c, d, rects[1..], origin);
      forall x: nat, y: nat
        ensures InSome(rects, origin, x, y) <==> InRect(Moved(rects[0], origin), x, y) || InSome(rects[1..], origin, x, y)
      {
        SomeSplit(rects, origin, x, y);
      }
      var first := PaintsInRect(d, rects[0]);
      if AllOn(c, first, origin) {
        forall x: nat, y: nat | InRect(Cell(d, origin), x, y) && InRect(Moved(rects[0], origin), x, y)
          ensures x < c.width && y < c.height
        {
          RectDeclares(c, d, rects[0], origin, x, y);
        }
      } else if DeclaredOn(c, Cell(d, origin), rects, origin) {
        RectIsDeclared(c, d, rects[0], origin);
      }
    }
  }

  lemma NoneDeclared(c: Canvas, cell: Rect, origin: (nat, nat))
    ensures DeclaredOn(c, cell, [], origin)
  {
  }

  /** Over all tiles of a region: no paint is clipped exactly when every declared pixel of every tile is on the surface. */
  lemma {:induction false} TilesDeclare(c: Canvas, pending: seq<Decoded>, rects: seq<Rect>, origin: (nat, nat))
    requires AllShaped(pending)
    ensures AllOn(c, PaintsOf(pending, rects), origin) <==>
            forall i :: 0 <= i < |pending| ==> DeclaredOn(c, Cell(pending[i], origin), rects, origin)
    decreases |pending|
  {
    hide PaintsInRects, DeclaredOn, Cell, AllVisible, Area, PaintAt;
    if pending != [] {
      var rest := pending[1..];
      RectsDeclare(c, pending[0], rects, origin);
      TilesDeclare(c, rest, rects, origin);
      assert forall i :: 0 < i < |pending| ==> pending[i] == rest[i - 1];
    }
  }

  lemma {:induction false} CornersAre(c: Canvas, pending: seq<Decoded>, origin: (nat, nat))
    ensures CornersOn(c, CornersOf(pending), origin) <==> forall i :: 0 <= i < |pending| ==> !Rejected(c, pending[i], origin)
    decreases |pending|
  {
    if pending != [] {
      var rest := pending[1..];
      CornersAre(c, rest, origin);
      assert forall i :: 0 < i < |pending| ==> pending[i] == rest[i - 1];
    }
  }

  // ---------- Regions and streams ----------

  function RegionUpdate(base: Baseline, surface: U16, body: seq<Byte>): (u: Update)
    requires AllValid(base)
    ensures AllValid(u.base)
  {
    match ReadRegion(body)
    case None => Update(base, [], [], false)
    case Some(r) =>
      TilesKeepOthers(base, surface, r.tables, r.tiles, 0);
      PendingIsShaped(base, surface, r.tables, r.tiles, 0);
      var run := DecodeTiles(base, surface, r.tables, r.tiles, 0);
      Update(run.base, CornersOf(run.pending), PaintsOf(run.pending, r.rects), run.ok)
  }

  lemma RegionIsItsUpdate(base: Baseline, surface: U16, body: seq<Byte>, c: Image, origin: (nat, nat))
    requires AllValid(base)
    ensures var u := RegionUpdate(base, surface, body);
            DecodeRegion(base, surface, body, c, origin)
            == Shown(u.base, PaintAll(c, AllAt(u.paints, origin)), u.ok && Fits(c, u, origin))
  {
    hide DecodeTiles, Composite, PaintsOf, CornersOf, Lost, RejectedCount, AllAt, PaintAll, AllVisible, Area, PaintAt;
    match ReadRegion(body)
    case None => NothingAt(c, origin);
    case Some(r) =>
      PendingIsShaped(base, surface, r.tables, r.tiles, 0);
      var run := DecodeTiles(base, surface, r.tables, r.tiles, 0);
      TilesArePaints(c, run.pending, r.rects, origin);
      TilesLoseNothing(c, run.pending, r.rects, origin);
  }

  function Joined(first: Update, rest: Update): Update {
    Update(rest.base, first.corners + rest.corners, first.paints + rest.paints, first.ok && rest.ok)
  }

  /** `DecodeStream` without a surface. */
  function StreamUpdate(base: Baseline, surface: U16, data: seq<Byte>, pos: nat): (u: Update)
    requires AllValid(base)
    ensures AllValid(u.base)
    decreases |data| - pos
  {
    if pos + BLOCK_HEADER > |data| then Update(base, [], [], true)
    else
      match BlockLength(data, pos)
      case None => Update(base, [], [], false)
      case Some(length) =>
        if Field16(data, pos) != REGION then StreamUpdate(base, surface, data, pos + length)
        else
          var first := RegionUpdate(base, surface, data[pos + BLOCK_HEADER..pos + length]);
          Joined(first, StreamUpdate(first.base, surface, data, pos + length))
  }

  lemma JoinedFits(c: Canvas, d: Canvas, first: Update, rest: Update, origin: (nat, nat))
    requires d.width == c.width && d.height == c.height
    ensures Fits(c, Joined(first, rest), origin) <==> Fits(c, first, origin) && Fits(d, rest, origin)
  {
    hide PaintAt, Area;
  }

  /**
   A stream on a surface: it stores what it stores on any surface, paints its pictures clipped
   to this one, and succeeds exactly when every block decodes and nothing is clipped or rejected.
   */
  lemma {:induction false} StreamIsItsUpdate(base: Baseline, surface: U16, data: seq<Byte>, pos: nat, c: Image, origin: (nat, nat))
    requires AllValid(base)
    ensures var u := StreamUpdate(base, surface, data, pos);
            DecodeStream(base, surface, data, pos, c, origin)
            == Shown(u.base, PaintAll(c, AllAt(u.paints, origin)), u.ok && Fits(c, u, origin))
    decreases |data| - pos
  {
    hide DecodeRegion, RegionUpdate, BlockLength, Field16, AllAt, PaintAll, Fits;
    if pos + BLOCK_HEADER > |data| || BlockLength(data, pos).None? {
      NothingAt(c, origin);
      NothingFits(c, base, origin);
    } else {
      var length := BlockLength(data, pos).value;
      if Field16(data, pos) != REGION {
        StreamIsItsUpdate(base, surface, data, pos + length, c, origin);
      } else {
        var body := data[pos + BLOCK_HEADER..pos + length];
        var first := RegionUpdate(base, surface, body);
        RegionIsItsUpdate(base, surface, body, c, origin);
        var next: Image := PaintAll(c, AllAt(first.paints, origin));
        StreamIsItsUpdate(first.base, surface, data, pos + length, next, origin);
        var rest := StreamUpdate(first.base, surface, data, pos + length);
        JoinedFits(c, next, first, rest, origin);
        AllAtJoins(first.paints, rest.paints, origin);
        PaintAllJoins(c, AllAt(first.paints, origin), AllAt(rest.paints, origin));
      }
    }
  }

  lemma NothingFits(c: Canvas, base: Baseline, origin: (nat, nat))
    ensures forall ok: bool :: Fits(c, Update(base, [], [], ok), origin)
  {
  }
}
