/** The ideal client, whose surfaces have no edges, and when the real one shows the same. */
module GfxIdeal {
  import opened Machine
  import opened Pixels
  import opened Canvas
  import opened Paints
  import opened Surfaces
  import opened Screens
  import opened Gfx
  import opened GfxMachine
  import opened GfxRuns
  import opened GfxAccounts
  import SurfaceManagers
  import TB = TileBlocks
  import R = Regions
  import RP = RegionPaints
  import C = ClearCodec

  // ---------- Canvases without edges ----------

  type Plane = (nat, nat) -> Pixel

  function FilledPlane(p: Plane, r: Rect, colour: Pixel): Plane {
    (x: nat, y: nat) => if InRect(r, x, y) then colour else p(x, y)
  }

  function PaintedPlane(p: Plane, q: Paint): Plane {
    (x: nat, y: nat) => if InRect(Area(q), x, y) then q.image.rows[y - q.y][x - q.x] else p(x, y)
  }

  function PaintPlane(p: Plane, qs: seq<Paint>): Plane
    decreases |qs|
  {
    if qs == [] then p else PaintPlane(PaintedPlane(p, qs[0]), qs[1..])
  }

  function FillPlane(p: Plane, rects: seq<RectU16>, colour: Pixel): Plane
    decreases |rects|
  {
    if rects == [] then p
    else
      match rects[0].Size()
      case None => FillPlane(p, rects[1..], colour)
      case Some((w, h)) => FillPlane(FilledPlane(p, Rect(rects[0].left, rects[0].top, w, h), colour), rects[1..], colour)
  }

  function StampPlane(p: Plane, points: seq<Point>, image: Image): Plane
    decreases |points|
  {
    if points == [] then p
    else
      var last := points[|points| - 1];
      PaintedPlane(StampPlane(p, points[..|points| - 1], image), Paint(last.x, last.y, image))
  }

  function ReadPlane(p: Plane, r: Rect): Image {
    Canvas(r.w, r.h, seq(r.h, y requires 0 <= y < r.h => seq(r.w, x requires 0 <= x < r.w => p(r.x + x, r.y + y))))
  }

  // ---------- The ideal client ----------

  datatype Ideal = Ideal(codecs: Codecs, planes: map<U16, Plane>, cache: map<U16, Image>, clear: C.State, base: TB.Baseline)

  function Draw(i: Ideal, id: U16, p: Plane): Ideal {
    i.(planes := i.planes[id := p])
  }

  function IdealProgressive(i: Ideal, id: U16, bitmap: seq<Byte>, x: U16, y: U16): Ideal
    requires id in i.planes
  {
    var u := i.codecs.progressive(i.base, id, bitmap);
    Draw(i, id, PaintPlane(i.planes[id], AllAt(u.paints, (x, y)))).(base := u.base)
  }

  function IdealClear(i: Ideal, id: U16, bitmap: seq<Byte>, x: U16, y: U16, w: U16, h: U16): Ideal
    requires id in i.planes
  {
    var (clear, image) := i.codecs.clear(bitmap, i.clear, w, h);
    match image
    case None => i.(clear := clear)
    case Some(im) => Draw(i, id, PaintedPlane(i.planes[id], Paint(x, y, im))).(clear := clear)
  }

  function IdealDraw1(i: Ideal, id: U16, codec: U16, dest: RectU16, bitmap: seq<Byte>): Ideal {
    match dest.Size()
    case None => i
    case Some((w, h)) =>
      if id !in i.planes then i
      else if codec == CODEC_CLEARCODEC then IdealClear(i, id, bitmap, dest.left, dest.top, w, h)
      else if codec == CODEC_CAPROGRESSIVE then IdealProgressive(i, id, bitmap, dest.left, dest.top)
      else if codec == CODEC_UNCOMPRESSED && |bitmap| >= w * h * 4 then
        Draw(i, id, PaintedPlane(i.planes[id], Paint(dest.left, dest.top, RawImage(bitmap, w, h))))
      else i
  }

  /** Nothing is clipped when it is drawn, and reads see what was drawn, wherever it lies. */
  function IdealApply(i: Ideal, pdu: Pdu): Ideal {
    match pdu
    case ResetGraphics(_, _) => i.(base := map[])
    case CreateSurface(id, _, _, _) => Draw(i, id, (x: nat, y: nat) => ABSENT).(base := R.Without(i.base, id))
    case DeleteSurface(id) => i.(planes := i.planes - {id}, base := R.Without(i.base, id))
    case WireToSurface1(id, codec, _, dest, bitmap) => IdealDraw1(i, id, codec, dest, bitmap)
    case WireToSurface2(id, codec, bitmap) =>
      if id !in i.planes || codec != CODEC_CAPROGRESSIVE then i else IdealProgressive(i, id, bitmap, 0, 0)
    case SolidFill(id, colour, rects) =>
      if id in i.planes then Draw(i, id, FillPlane(i.planes[id], rects, OpaqueColour(colour))) else i
    case SurfaceToSurface(from, rect, to, points) =>
      if rect.Size().None? || from !in i.planes || to !in i.planes then i
      else
        var (w, h) := rect.Size().value;
        Draw(i, to, StampPlane(i.planes[to], points, ReadPlane(i.planes[from], Rect(rect.left, rect.top, w, h))))
    case SurfaceToCache(id, slot, rect) =>
      if rect.Size().None? || id !in i.planes then i
      else
        var (w, h) := rect.Size().value;
        i.(cache := i.cache[slot := ReadPlane(i.planes[id], Rect(rect.left, rect.top, w, h))])
    case CacheToSurface(slot, id, points) =>
      if id in i.planes && slot in i.cache then Draw(i, id, StampPlane(i.planes[id], points, i.cache[slot])) else i
    case EvictCacheEntry(slot) => i.(cache := i.cache - {slot})
    case _ => i
  }

  function IdealAll(i: Ideal, pdus: seq<Pdu>): Ideal
    decreases |pdus|
  {
    if pdus == [] then i else IdealAll(IdealApply(i, pdus[0]), pdus[1..])
  }

  // ---------- The real client shows a part of it ----------

  /** The picture is the plane restricted to the picture's size. */
  ghost predicate Restricts(c: Image, p: Plane) {
    forall x: nat, y: nat :: x < c.width && y < c.height ==> c.rows[y][x] == p(x, y)
  }

  ghost predicate Shows(surfaces: map<U16, Image>, planes: map<U16, Plane>) {
    surfaces.Keys == planes.Keys && forall id :: id in surfaces ==> Restricts(surfaces[id], planes[id])
  }

  /** Same decoder states, same cached rectangles, and every surface a restriction of its plane. */
  ghost predicate Matches(s: State, i: Ideal) {
    s.codecs == i.codecs && s.clear == i.clear && s.base == i.base && s.screen.cache == i.cache && Shows(s.screen.surfaces, i.planes)
  }

  lemma PaintRestricts(c: Image, p: Plane, q: Paint)
    requires Restricts(c, p)
    ensures Restricts(Painted(c, q), PaintedPlane(p, q))
  {
    forall x: nat, y: nat | x < c.width && y < c.height
      ensures Painted(c, q).rows[y][x] == PaintedPlane(p, q)(x, y)
    {
      BlitShows(c, q.x, q.y, q.image.width, q.image.rows, x, y);
    }
  }

  lemma {:induction false} PaintAllRestricts(c: Image, p: Plane, qs: seq<Paint>)
    requires Restricts(c, p)
    ensures Restricts(PaintAll(c, qs), PaintPlane(p, qs))
    decreases |qs|
  {
    hide Restricts, Painted, PaintedPlane;
    if qs != [] {
      PaintRestricts(c, p, qs[0]);
      PaintAllRestricts(Painted(c, qs[0]), PaintedPlane(p, qs[0]), qs[1..]);
    }
  }

  lemma FillRestricts(c: Image, p: Plane, r: Rect, colour: Pixel)
    requires Restricts(c, p)
    ensures Restricts(Filled(c, r, colour), FilledPlane(p, r, colour))
  {
  }

  lemma {:induction false} FillAllRestricts(c: Image, p: Plane, rects: seq<RectU16>, colour: Pixel)
    requires Restricts(c, p)
    ensures Restricts(FillAll(c, rects, colour), FillPlane(p, rects, colour))
    decreases |rects|
  {
    hide Restricts, Filled, FilledPlane;
    if rects != [] {
      match rects[0].Size()
      case None => FillAllRestricts(c, p, rects[1..], colour);
      case Some((w, h)) =>
        var r := Rect(rects[0].left, rects[0].top, w, h);
        FillRestricts(c, p, r, colour);
        FillAllRestricts(Filled(c, r, colour), FilledPlane(p, r, colour), rects[1..], colour);
    }
  }

  lemma {:induction false} StampRestricts(c: Image, p: Plane, points: seq<Point>, image: Image)
    requires Restricts(c, p)
    ensures Restricts(Stamped(c, points, image.width, image.rows), StampPlane(p, points, image))
    decreases |points|
  {
    hide Restricts, Blitted, PaintedPlane;
    if points != [] {
      var front, last := points[..|points| - 1], points[|points| - 1];
      StampRestricts(c, p, front, image);
      PaintRestricts(Stamped(c, front, image.width, image.rows), StampPlane(p, front, image), Paint(last.x, last.y, image));
    }
  }

  /** Reading a rectangle that lies on the surface is reading it from the plane. */
  lemma ReadIsExtract(c: Image, p: Plane, r: Rect)
    requires Restricts(c, p) && AllVisible(c, r)
    ensures ReadPlane(p, r) == Canvas(r.w, r.h, Extracted(c, r))
  {
    var a, b := ReadPlane(p, r).rows, Extracted(c, r);
    forall y, x | 0 <= y < r.h && 0 <= x < r.w
      ensures a[y][x] == b[y][x]
    {
      ExtractShows(c, r, x, y);
      assert InRect(r, r.x + x, r.y + y);
    }
    SameRows(a, b, r.w);
  }

  lemma DrawShows(surfaces: map<U16, Image>, planes: map<U16, Plane>, id: U16, c: Image, p: Plane)
    requires Shows(surfaces, planes) && Restricts(c, p)
    ensures Shows(surfaces[id := c], planes[id := p])
  {
    hide Restricts;
    assert surfaces[id := c].Keys == surfaces.Keys + {id} && planes[id := p].Keys == planes.Keys + {id};
  }

  // ---------- One PDU ----------

  /** What the PDU reads from a surface lies on the surface; drawing may be clipped. */
  ghost predicate ReadsWhole(s: State, pdu: Pdu) {
    match pdu
    case SurfaceToSurface(from, rect, _, _) =>
      rect.Size().Some? && from in s.screen.surfaces ==>
        AllVisible(s.screen.surfaces[from], Rect(rect.left, rect.top, rect.Size().value.0, rect.Size().value.1))
    case SurfaceToCache(from, _, rect) =>
      rect.Size().Some? && from in s.screen.surfaces ==>
        AllVisible(s.screen.surfaces[from], Rect(rect.left, rect.top, rect.Size().value.0, rect.Size().value.1))
    case _ => true
  }

  ghost predicate EffectMatches(e: Effect, i: Ideal) {
    e.clear == i.clear && e.base == i.base && e.screen.cache == i.cache && Shows(e.screen.surfaces, i.planes)
  }

  lemma ProgressiveMatches(s: State, i: Ideal, id: U16, bitmap: seq<Byte>, x: U16, y: U16)
    requires Matches(s, i) && id in s.screen.surfaces
    ensures id in i.planes && EffectMatches(DrawProgressive(s, id, bitmap, x, y), IdealProgressive(i, id, bitmap, x, y))
  {
    hide Restricts, PaintAll, PaintPlane, AllAt, RP.Fits;
    assert id in i.planes.Keys;
    var u, c := s.codecs.progressive(s.base, id, bitmap), s.screen.surfaces[id];
    PaintAllRestricts(c, i.planes[id], AllAt(u.paints, (x, y)));
    DrawShows(s.screen.surfaces, i.planes, id, PaintAll(c, AllAt(u.paints, (x, y))), PaintPlane(i.planes[id], AllAt(u.paints, (x, y))));
  }

  lemma PaintMatches(s: State, i: Ideal, id: U16, q: Paint)
    requires Matches(s, i) && id in s.screen.surfaces
    ensures id in i.planes && Shows(s.screen.surfaces[id := Painted(s.screen.surfaces[id], q)], i.planes[id := PaintedPlane(i.planes[id], q)])
  {
    hide Restricts, Painted, PaintedPlane;
    assert id in i.planes.Keys;
    PaintRestricts(s.screen.surfaces[id], i.planes[id], q);
    DrawShows(s.screen.surfaces, i.planes, id, Painted(s.screen.surfaces[id], q), PaintedPlane(i.planes[id], q));
  }

  lemma Draw1Matches(s: State, i: Ideal, id: U16, codec: U16, dest: RectU16, bitmap: seq<Byte>)
    requires Matches(s, i)
    ensures EffectMatches(Draw1(s, id, codec, dest, bitmap), IdealDraw1(i, id, codec, dest, bitmap))
  {
    hide Shows, Painted, PaintedPlane, Whole, BlitOutcome, RawImage, DrawProgressive, IdealProgressive;
    SameIds(s, i, id);
    if dest.Size().Some? && id in s.screen.surfaces {
      var (w, h) := dest.Size().value;
      ProgressiveMatches(s, i, id, bitmap, dest.left, dest.top);
      PaintMatches(s, i, id, Paint(dest.left, dest.top, RawImage(bitmap, w, h)));
      match s.codecs.clear(bitmap, s.clear, w, h).1
      case None =>
      case Some(im) => PaintMatches(s, i, id, Paint(dest.left, dest.top, im));
    }
  }

  lemma SameIds(s: State, i: Ideal, id: U16)
    requires Matches(s, i)
    ensures id in s.screen.surfaces <==> id in i.planes
    ensures id in i.planes ==> Restricts(s.screen.surfaces[id], i.planes[id])
  {
    hide Restricts;
    assert id in s.screen.surfaces.Keys <==> id in i.planes.Keys;
  }

  lemma FillMatches(s: State, i: Ideal, pdu: Pdu)
    requires Matches(s, i) && pdu.SolidFill?
    ensures EffectMatches(EffectOf(s, pdu), IdealApply(i, pdu))
  {
    hide Shows, Restricts, FillAll, FillPlane, FillChecks, SwappedRects, OpaqueColour;
    var id, colour := pdu.surface, OpaqueColour(pdu.colour);
    SameIds(s, i, id);
    if id in s.screen.surfaces {
      FillAllRestricts(s.screen.surfaces[id], i.planes[id], pdu.rects, colour);
      DrawShows(s.screen.surfaces, i.planes, id, FillAll(s.screen.surfaces[id], pdu.rects, colour), FillPlane(i.planes[id], pdu.rects, colour));
    }
  }

  lemma StampMatches(s: State, i: Ideal, id: U16, points: seq<Point>, image: Image)
    requires Matches(s, i) && id in s.screen.surfaces
    ensures id in i.planes &&
            Shows(s.screen.surfaces[id := Stamped(s.screen.surfaces[id], points, image.width, image.rows)],
                  i.planes[id := StampPlane(i.planes[id], points, image)])
  {
    hide Shows, Restricts, Stamped, StampPlane;
    SameIds(s, i, id);
    StampRestricts(s.screen.surfaces[id], i.planes[id], points, image);
    DrawShows(s.screen.surfaces, i.planes, id, Stamped(s.screen.surfaces[id], points, image.width, image.rows),
              StampPlane(i.planes[id], points, image));
  }

  lemma CopyMatches(s: State, i: Ideal, pdu: Pdu)
    requires Matches(s, i) && pdu.SurfaceToSurface? && ReadsWhole(s, pdu)
    ensures EffectMatches(EffectOf(s, pdu), IdealApply(i, pdu))
  {
    hide Shows, Restricts, Stamped, StampPlane, ReadPlane, Extracted, Whole, SurfaceManagers.StampOutcomes, AllVisible;
    SameIds(s, i, pdu.source);
    SameIds(s, i, pdu.surface);
    if pdu.rect.Size().Some? && pdu.source in s.screen.surfaces && pdu.surface in s.screen.surfaces {
      var (w, h) := pdu.rect.Size().value;
      var r := Rect(pdu.rect.left, pdu.rect.top, w, h);
      ReadIsExtract(s.screen.surfaces[pdu.source], i.planes[pdu.source], r);
      StampMatches(s, i, pdu.surface, pdu.points, ReadPlane(i.planes[pdu.source], r));
    }
  }

  lemma CacheMatches(s: State, i: Ideal, pdu: Pdu)
    requires Matches(s, i) && (pdu.SurfaceToCache? || pdu.CacheToSurface? || pdu.EvictCacheEntry?) && ReadsWhole(s, pdu)
    ensures EffectMatches(EffectOf(s, pdu), IdealApply(i, pdu))
  {
    hide Shows, Restricts, Stamped, StampPlane, ReadPlane, Extracted, Whole, SurfaceManagers.StampOutcomes, AllVisible;
    match pdu
    case SurfaceToCache(id, slot, rect) =>
      SameIds(s, i, id);
      if rect.Size().Some? && id in s.screen.surfaces {
        var (w, h) := rect.Size().value;
        ReadIsExtract(s.screen.surfaces[id], i.planes[id], Rect(rect.left, rect.top, w, h));
      }
    case CacheToSurface(slot, id, points) =>
      SameIds(s, i, id);
      if id in s.screen.surfaces && slot in s.screen.cache {
        StampMatches(s, i, id, points, s.screen.cache[slot]);
      }
    case EvictCacheEntry(_) =>
  }

  lemma DrawMatches(s: State, i: Ideal, pdu: Pdu)
    requires Matches(s, i) && ReadsWhole(s, pdu)
    requires !pdu.ResetGraphics? && !pdu.CreateSurface? && !pdu.DeleteSurface?
    ensures EffectMatches(EffectOf(s, pdu), IdealApply(i, pdu))
  {
    hide Shows, Draw1, DrawFill, DrawCopy, Store, Recall, IdealDraw1, DrawProgressive, IdealProgressive, ReadsWhole;
    match pdu
    case WireToSurface1(id, codec, _, dest, bitmap) => Draw1Matches(s, i, id, codec, dest, bitmap);
    case WireToSurface2(id, codec, bitmap) =>
      SameIds(s, i, id);
      if id in s.screen.surfaces {
        ProgressiveMatches(s, i, id, bitmap, 0, 0);
      }
    case SolidFill(_, _, _) => FillMatches(s, i, pdu);
    case SurfaceToSurface(_, _, _, _) => CopyMatches(s, i, pdu);
    case SurfaceToCache(_, _, _) => CacheMatches(s, i, pdu);
    case CacheToSurface(_, _, _) => CacheMatches(s, i, pdu);
    case EvictCacheEntry(_) => CacheMatches(s, i, pdu);
    case _ =>
  }

  lemma LifecycleMatches(s: State, i: Ideal, pdu: Pdu)
    requires Matches(s, i) && (pdu.ResetGraphics? || pdu.CreateSurface? || pdu.DeleteSurface?)
    ensures Matches(Apply(s, pdu), IdealApply(i, pdu))
  {
    hide Restricts, R.Without, Unmapped, Blank;
    match pdu
    case ResetGraphics(_, _) =>
    case CreateSurface(id, w, h, _) =>
      BlankRestricts(w, h);
      DrawShows(s.screen.surfaces, i.planes, id, Blank(w, h), IdealApply(i, pdu).planes[id]);
    case DeleteSurface(id) =>
      var a, b := s.screen.surfaces - {id}, i.planes - {id};
      assert a.Keys == s.screen.surfaces.Keys - {id} && b.Keys == i.planes.Keys - {id};
  }

  lemma BlankRestricts(w: nat, h: nat)
    ensures Restricts(Blank(w, h), (x: nat, y: nat) => ABSENT)
  {
  }

  /** One PDU that reads nothing beyond an edge keeps the real client on the ideal one, however much of its drawing is clipped. */
  lemma ApplyMatches(s: State, i: Ideal, pdu: Pdu)
    requires Matches(s, i) && ReadsWhole(s, pdu)
    ensures Matches(Apply(s, pdu), IdealApply(i, pdu))
  {
    if pdu.ResetGraphics? || pdu.CreateSurface? || pdu.DeleteSurface? {
      LifecycleMatches(s, i, pdu);
    } else {
      hide Shows, EffectOf, NotedAll, Unmapped, IdealDraw1, IdealProgressive, FillPlane, StampPlane, ReadPlane;
      EffectIgnoresStats(s, CountedStats(s.stats, pdu), pdu);
      DrawMatches(s, i, pdu);
    }
  }

  // ---------- Runs ----------

  lemma ChecksCoverReads(s: State, pdu: Pdu)
    requires forall o :: o in EffectOf(s, pdu).checks ==> o.written >= o.requested
    ensures ReadsWhole(s, pdu)
  {
    hide AllVisible, Visible, Extracted, Stamped, SurfaceManagers.StampOutcomes, Draw1, Draw2, DrawFill, Recall;
    match pdu
    case SurfaceToSurface(from, rect, to, points) =>
      if rect.Size().Some? && from in s.screen.surfaces {
        var r := Rect(rect.left, rect.top, rect.Size().value.0, rect.Size().value.1);
        assert Whole(s.screen.surfaces[from], r) == EffectOf(s, pdu).checks[0];
        WholeReads(s.screen.surfaces[from], r);
      }
    case SurfaceToCache(from, _, rect) =>
      if rect.Size().Some? && from in s.screen.surfaces {
        var r := Rect(rect.left, rect.top, rect.Size().value.0, rect.Size().value.1);
        assert Whole(s.screen.surfaces[from], r) == EffectOf(s, pdu).checks[0];
        WholeReads(s.screen.surfaces[from], r);
      }
    case _ =>
  }

  lemma WholeReads(c: Canvas, r: Rect)
    requires Whole(c, r).written >= Whole(c, r).requested
    ensures AllVisible(c, r)
  {
    hide AllVisible;
    RP.VisibleAtMost(c, r);
    NothingDropped(c, r);
  }

  lemma {:induction false} RunMatches(s: State, i: Ideal, pdus: seq<Pdu>)
    requires Matches(s, i) && ChecksWhole(s, pdus)
    ensures Matches(ApplyAll(s, pdus), IdealAll(i, pdus))
    decreases |pdus|
  {
    hide Matches, EffectOf, Apply, IdealApply, ReadsWhole;
    if pdus != [] {
      ChecksCoverReads(s, pdus[0]);
      ApplyMatches(s, i, pdus[0]);
      RunMatches(Apply(s, pdus[0]), IdealApply(i, pdus[0]), pdus[1..]);
    }
  }

  /**
   Over any run that leaves the pixel counter unchanged, every surface is the ideal one restricted
   to its size and every cached rectangle is the ideal one.
   */
  lemma UnchangedMeansIdeal(s: State, i: Ideal, pdus: seq<Pdu>)
    requires Matches(s, i) && ApplyAll(s, pdus).stats.droppedPixels == s.stats.droppedPixels
    ensures Matches(ApplyAll(s, pdus), IdealAll(i, pdus))
  {
    hide *;
    UnchangedMeansChecksWhole(s, pdus);
    RunMatches(s, i, pdus);
  }

  /** An ideal client with no surfaces. */
  function Empty(codecs: Codecs): Ideal {
    Ideal(codecs, map[], map[], C.Fresh(), map[])
  }

  lemma StartsIdeal(codecs: Codecs, width: U32, height: U32)
    ensures Matches(Initial(codecs, width, height), Empty(codecs)) && Initial(codecs, width, height).stats.droppedPixels == 0
  {
  }

  /** A connection whose pixel counter still stands at zero shows what the ideal client shows. */
  lemma ConnectionIsIdeal(codecs: Codecs, width: U32, height: U32, pdus: seq<Pdu>)
    requires ApplyAll(Initial(codecs, width, height), pdus).stats.droppedPixels == 0
    ensures Matches(ApplyAll(Initial(codecs, width, height), pdus), IdealAll(Empty(codecs), pdus))
  {
    hide *;
    StartsIdeal(codecs, width, height);
    UnchangedMeansIdeal(Initial(codecs, width, height), Empty(codecs), pdus);
  }

  /** The condition cannot be dropped: a read beyond an edge finds zero where the ideal client finds what was drawn there. */
  lemma ClippedReadsDiffer(s: State, i: Ideal, id: U16, slot: U16, rect: RectU16, x: nat, y: nat)
    requires Matches(s, i) && id in s.screen.surfaces && rect.Size().Some?
    requires x < rect.Size().value.0 && y < rect.Size().value.1
    requires rect.left + x >= s.screen.surfaces[id].width && id in i.planes && i.planes[id](rect.left + x, rect.top + y) != ABSENT
    ensures !Matches(Apply(s, SurfaceToCache(id, slot, rect)), IdealApply(i, SurfaceToCache(id, slot, rect)))
  {
    hide NotedAll, Visible, Extracted, Shows;
    var (w, h) := rect.Size().value;
    var r := Rect(rect.left, rect.top, w, h);
    ExtractShows(s.screen.surfaces[id], r, x, y);
    var seen, meant := Extracted(s.screen.surfaces[id], r), ReadPlane(i.planes[id], r).rows;
    assert seen[y][x] == ABSENT && meant[y][x] != ABSENT;
    var store := SurfaceToCache(id, slot, rect);
    assert Apply(s, store).screen.cache[slot].rows == seen;
    assert IdealApply(i, store).cache[slot].rows == meant;
  }
}
