/** What the surface and cache operations mean for the pictures of all surfaces. */
module Screens {
  import opened Machine
  import opened Pixels
  import opened Canvas

  /** The pictures of all surfaces and of all cached rectangles, by id and slot. */
  datatype Screen = Screen(surfaces: map<U16, Image>, cache: map<U16, Image>)

  datatype Point = Point(x: U16, y: U16)

  // ---------- One source, many destinations ----------

  /** `src` painted at every point, one after another. */
  function Stamped(c: Canvas, pts: seq<Point>, w: nat, src: Rows<Pixel>): (d: Canvas)
    requires Wide(src, w)
    ensures c.Valid() ==> d.Valid() && d.width == c.width && d.height == c.height
    decreases |pts|
  {
    if pts == [] then c
    else
      var before := Stamped(c, pts[..|pts| - 1], w, src);
      Blitted(before, pts[|pts| - 1].x, pts[|pts| - 1].y, w, src)
  }

  predicate Covers(p: Point, w: nat, h: nat, x: nat, y: nat) {
    InRect(Rect(p.x, p.y, w, h), x, y)
  }

  /** The last point whose copy covers (x, y). */
  function LastCover(pts: seq<Point>, w: nat, h: nat, x: nat, y: nat): (i: Option<nat>)
    ensures i.Some? ==> i.value < |pts| && Covers(pts[i.value], w, h, x, y)
    ensures forall j :: (if i.Some? then i.value else -1) < j < |pts| ==> !Covers(pts[j], w, h, x, y)
    decreases |pts|
  {
    if pts == [] then None
    else if Covers(pts[|pts| - 1], w, h, x, y) then Some(|pts| - 1)
    else LastCover(pts[..|pts| - 1], w, h, x, y)
  }

  /** The last covering point wins, and pixels that no point covers keep their colour. */
  lemma {:induction false} StampShows(c: Canvas, pts: seq<Point>, w: nat, src: Rows<Pixel>, x: nat, y: nat)
    requires c.Valid() && Wide(src, w) && x < c.width && y < c.height
    ensures Stamped(c, pts, w, src).rows[y][x]
         == match LastCover(pts, w, |src|, x, y)
            case Some(i) => src[y - pts[i].y][x - pts[i].x]
            case None => c.rows[y][x]
    decreases |pts|
  {
    if pts != [] {
      StampShows(c, pts[..|pts| - 1], w, src, x, y);
      var before := Stamped(c, pts[..|pts| - 1], w, src);
      BlitShows(before, pts[|pts| - 1].x, pts[|pts| - 1].y, w, src, x, y);
    }
  }

  lemma BlitShows(c: Canvas, x0: nat, y0: nat, w: nat, src: Rows<Pixel>, x: nat, y: nat)
    requires c.Valid() && Wide(src, w) && x < c.width && y < c.height
    ensures Blitted(c, x0, y0, w, src).rows[y][x]
         == if InRect(Rect(x0, y0, w, |src|), x, y) then src[y - y0][x - x0] else c.rows[y][x]
  {
  }

  // ---------- Copies between surfaces and through the cache ----------

  function Copied(s: Screen, from: U16, r: Rect, to: U16, pts: seq<Point>): Screen
    requires from in s.surfaces && to in s.surfaces
  {
    var src := Extracted(s.surfaces[from], r);
    s.(surfaces := s.surfaces[to := Stamped(s.surfaces[to], pts, r.w, src)])
  }

  function Cached(s: Screen, from: U16, slot: U16, r: Rect): Screen
    requires from in s.surfaces
  {
    s.(cache := s.cache[slot := Canvas(r.w, r.h, Extracted(s.surfaces[from], r))])
  }

  function Recalled(s: Screen, slot: U16, to: U16, pts: seq<Point>): Screen
    requires slot in s.cache && to in s.surfaces
  {
    s.(surfaces := s.surfaces[to := Stamped(s.surfaces[to], pts, s.cache[slot].width, s.cache[slot].rows)])
  }

  function Evicted(s: Screen, slot: U16): Screen {
    s.(cache := s.cache - {slot})
  }

  lemma ExtractShows(c: Canvas, r: Rect, x: nat, y: nat)
    requires x < r.w && y < r.h
    ensures Extracted(c, r)[y][x] == PixelOr(c, r.x + x, r.y + y)
  {
    assert Extracted(c, r)[y] == ExtractedRow(c, r, y);
  }

  /**
   Whatever overlaps, a copied pixel is the source's pixel from before the copy, taken at the
   last point that covers it; it is zero where the source rectangle runs off its surface.
   */
  lemma {:induction false} CopyShows(s: Screen, from: U16, r: Rect, to: U16, pts: seq<Point>, x: nat, y: nat)
    requires from in s.surfaces && to in s.surfaces
    requires x < s.surfaces[to].width && y < s.surfaces[to].height
    ensures Copied(s, from, r, to, pts).surfaces[to].rows[y][x]
         == match LastCover(pts, r.w, r.h, x, y)
            case Some(i) => PixelOr(s.surfaces[from], r.x + (x - pts[i].x), r.y + (y - pts[i].y))
            case None => s.surfaces[to].rows[y][x]
    ensures forall id :: id in s.surfaces && id != to ==> Copied(s, from, r, to, pts).surfaces[id] == s.surfaces[id]
  {
    hide Extracted;
    var src := Extracted(s.surfaces[from], r);
    StampShows(s.surfaces[to], pts, r.w, src, x, y);
    match LastCover(pts, r.w, r.h, x, y)
    case Some(i) => ExtractShows(s.surfaces[from], r, x - pts[i].x, y - pts[i].y);
    case None =>
  }

  /** A pixel painted from a cache slot is the pixel the slot's source had when the slot was stored. */
  lemma {:induction false} RecallShows(stored: Screen, from: U16, r: Rect, slot: U16, now: Screen, to: U16, pts: seq<Point>, x: nat, y: nat)
    requires from in stored.surfaces && to in now.surfaces
    requires slot in now.cache && now.cache[slot] == Cached(stored, from, slot, r).cache[slot]
    requires x < now.surfaces[to].width && y < now.surfaces[to].height
    ensures Recalled(now, slot, to, pts).surfaces[to].rows[y][x]
         == match LastCover(pts, r.w, r.h, x, y)
            case Some(i) => PixelOr(stored.surfaces[from], r.x + (x - pts[i].x), r.y + (y - pts[i].y))
            case None => now.surfaces[to].rows[y][x]
  {
    hide Extracted;
    var src := Extracted(stored.surfaces[from], r);
    StampShows(now.surfaces[to], pts, r.w, src, x, y);
    match LastCover(pts, r.w, r.h, x, y)
    case Some(i) => ExtractShows(stored.surfaces[from], r, x - pts[i].x, y - pts[i].y);
    case None =>
  }
}

/** `surface.rs`: the table of surfaces and the rectangle cache. */
module SurfaceManagers {
  import opened Machine
  import opened Grid
  import opened Pixels
  import opened Canvas
  import opened Screens
  import opened Surfaces

  datatype CachedRect = CachedRect(width: nat, height: nat, pixels: seq<Pixel>)

  datatype StampResult = Stamps(outcomes: seq<WriteOutcome>) | MissingSlot | MissingSurface

  /** A copy of a whole rectangle is only ever clipped by the destination. */
  function StampOutcomes(c: Canvas, pts: seq<Point>, w: nat, h: nat): seq<WriteOutcome> {
    seq(|pts|, i requires 0 <= i < |pts| => WriteOutcome(w * h, Visible(c, Rect(pts[i].x, pts[i].y, w, h)), false))
  }

  class SurfaceManager {
    var surfaces: map<U16, Surface>
    var cache: map<U16, CachedRect>

    ghost function Arrays(): set<array<Pixel>>
      reads this
    {
      set id | id in surfaces :: surfaces[id].pixels
    }

    ghost predicate Valid()
      reads this
    {
      && (forall id :: id in surfaces ==> surfaces[id].Valid())
      && (forall a, b :: a in surfaces && b in surfaces && a != b ==> surfaces[a].pixels != surfaces[b].pixels)
      && (forall slot :: slot in cache ==> |cache[slot].pixels| == At(0, cache[slot].width, cache[slot].height, 0))
    }

    ghost function View(): (s: Screen)
      requires Valid()
      reads this, Arrays()
      ensures s.surfaces.Keys == surfaces.Keys && s.cache.Keys == cache.Keys
    {
      CacheIsWide();
      Screen(map id | id in surfaces :: surfaces[id].View(),
             map slot | slot in cache ::
               Canvas(cache[slot].width, cache[slot].height, RowsOf(cache[slot].pixels, cache[slot].width, cache[slot].height)))
    }

    lemma CacheIsWide()
      requires Valid()
      ensures forall slot :: slot in cache ==> Wide(RowsOf(cache[slot].pixels, cache[slot].width, cache[slot].height), cache[slot].width)
    {
      forall slot | slot in cache
        ensures Wide(RowsOf(cache[slot].pixels, cache[slot].width, cache[slot].height), cache[slot].width)
      {
        RowsAreWide(cache[slot].pixels, cache[slot].width, cache[slot].height);
      }
    }

    constructor ()
      ensures Valid() && View() == Screen(map[], map[]) && Arrays() == {}
    {
      surfaces := map[];
      cache := map[];
    }

    method Create(id: U16, width: U16, height: U16)
      requires Valid()
      modifies this
      ensures Valid() && fresh(Arrays() - old(Arrays()))
      ensures View() == old(View()).(surfaces := old(View()).surfaces[id := Blank(width, height)])
    {
      hide Blank, At, RowsOf;
      ghost var before := View();
      var surface := new Surface(width, height);
      assert surface.pixels !in Arrays();
      surfaces := surfaces[id := surface];
      ghost var after := View();
      assert after.surfaces.Keys == before.surfaces.Keys + {id} && after.cache == before.cache;
      Replaced(before.surfaces, after.surfaces, id, Blank(width, height));
    }

    method Delete(id: U16) returns (existed: bool)
      requires Valid()
      modifies this
      ensures Valid() && Arrays() <= old(Arrays())
      ensures View() == old(View()).(surfaces := old(View()).surfaces - {id})
      ensures existed <==> id in old(surfaces)
    {
      existed := id in surfaces;
      surfaces := surfaces - {id};
    }

    method Fill(id: U16, x: nat, y: nat, w: nat, h: nat, bgra: Pixel) returns (outcome: WriteOutcome)
      requires Valid() && id in surfaces
      modifies Arrays()
      ensures Valid() && View() == old(View()).(surfaces := old(View()).surfaces[id := Filled(old(View()).surfaces[id], Rect(x, y, w, h), bgra)])
      ensures outcome == WriteOutcome(w * h, Visible(old(View()).surfaces[id], Rect(x, y, w, h)), false)
    {
      outcome := surfaces[id].FillRect(x, y, w, h, bgra);
    }

    method Blit(id: U16, x: nat, y: nat, w: nat, h: nat, src: seq<Pixel>) returns (outcome: WriteOutcome)
      requires Valid() && id in surfaces
      modifies Arrays()
      ensures Valid() && Wide(Source(src, w, h), w)
      ensures View() == old(View()).(surfaces := old(View()).surfaces[id := Blitted(old(View()).surfaces[id], x, y, w, Source(src, w, h))])
      ensures outcome == BlitOutcome(old(View()).surfaces[id], x, y, w, h, |src|)
    {
      hide Blitted, BlitOutcome, Source;
      outcome := surfaces[id].BlitRect(x, y, w, h, src);
      BlitKeepsShape(old(View()).surfaces[id], x, y, w, h, src);
      SameOutcome(surfaces[id].View(), old(View()).surfaces[id], x, y, w, h, |src|);
    }

    /** Stamps a whole rectangle at every point, in order. */
    method Stamp(id: U16, w: nat, h: nat, src: seq<Pixel>, pts: seq<Point>) returns (outcomes: seq<WriteOutcome>)
      requires Valid() && id in surfaces && |src| == At(0, w, h, 0)
      modifies Arrays()
      ensures Valid() && Wide(RowsOf(src, w, h), w)
      ensures View() == old(View()).(surfaces := old(View()).surfaces[id := Stamped(old(View()).surfaces[id], pts, w, RowsOf(src, w, h))])
      ensures outcomes == StampOutcomes(old(View()).surfaces[id], pts, w, h)
    {
      hide Stamped, StampOutcomes, RowsOf, At;
      outcomes := StampOn(surfaces[id], w, h, src, pts);
    }

    method StampOn(surface: Surface, w: nat, h: nat, src: seq<Pixel>, pts: seq<Point>) returns (outcomes: seq<WriteOutcome>)
      requires surface.Valid() && |src| == At(0, w, h, 0)
      modifies surface.pixels
      ensures Wide(RowsOf(src, w, h), w) && surface.View() == Stamped(old(surface.View()), pts, w, RowsOf(src, w, h))
      ensures outcomes == StampOutcomes(old(surface.View()), pts, w, h)
    {
      hide Blitted, BlitOutcome, Source, Visible, RowsOf, At;
      outcomes := [];
      WholeSource(src, w, h);
      ghost var c := surface.View();
      for i := 0 to |pts|
        invariant |outcomes| == i && surface.View() == Stamped(c, pts[..i], w, RowsOf(src, w, h))
        invariant forall j :: 0 <= j < i ==> outcomes[j] == StampOutcomes(c, pts, w, h)[j]
      {
        var outcome := surface.BlitRect(pts[i].x, pts[i].y, w, h, src);
        assert pts[..i + 1][..i] == pts[..i];
        WholeOutcome(surface.View(), c, pts[i].x, pts[i].y, w, h);
        outcomes := outcomes + [outcome];
      }
      assert pts[..|pts|] == pts;
    }

    /** Snapshots a rectangle into a cache slot. */
    method SurfaceToCache(id: U16, slot: U16, x: nat, y: nat, w: nat, h: nat) returns (outcome: Option<WriteOutcome>)
      requires Valid()
      modifies this`cache
      ensures Valid()
      ensures outcome.None? <==> id !in surfaces
      ensures outcome.None? ==> View() == old(View())
      ensures outcome.Some? ==>
                && View() == Cached(old(View()), id, slot, Rect(x, y, w, h))
                && outcome.value == WriteOutcome(w * h, Visible(View().surfaces[id], Rect(x, y, w, h)), false)
    {
      hide RowsOf, Visible, Extracted, At;
      if id !in surfaces {
        return None;
      }
      var buffer, extracted := surfaces[id].ExtractRect(x, y, w, h);
      cache := cache[slot := CachedRect(w, h, buffer)];
      return Some(extracted);
    }

    /** Stamps a cached rectangle at every point; a missing slot is noticed before a missing surface. */
    method CacheToSurface(slot: U16, id: U16, pts: seq<Point>) returns (r: StampResult)
      requires Valid()
      modifies Arrays()
      ensures Valid()
      ensures r.MissingSlot? <==> slot !in cache
      ensures r.MissingSurface? <==> slot in cache && id !in surfaces
      ensures !r.Stamps? ==> View() == old(View())
      ensures r.Stamps? ==>
                && View() == Recalled(old(View()), slot, id, pts)
                && r.outcomes == StampOutcomes(old(View()).surfaces[id], pts, cache[slot].width, cache[slot].height)
    {
      hide RowsOf, StampOutcomes, Stamped;
      if slot !in cache {
        return MissingSlot;
      }
      var cached := cache[slot];
      if id !in surfaces {
        return MissingSurface;
      }
      var outcomes := Stamp(id, cached.width, cached.height, cached.pixels, pts);
      return Stamps(outcomes);
    }

    method EvictCacheEntry(slot: U16) returns (existed: bool)
      requires Valid()
      modifies this`cache
      ensures Valid() && View() == Evicted(old(View()), slot)
      ensures existed <==> slot in old(cache)
    {
      existed := slot in cache;
      cache := cache - {slot};
    }
  }

  lemma Replaced(before: map<U16, Image>, after: map<U16, Image>, id: U16, c: Image)
    requires after.Keys == before.Keys + {id} && after[id] == c
    requires forall other :: other in before && other != id ==> after[other] == before[other]
    ensures after == before[id := c]
  {
  }

  lemma BlitKeepsShape(c: Canvas, x: nat, y: nat, w: nat, h: nat, src: seq<Pixel>)
    requires c.Valid()
    ensures Wide(Source(src, w, h), w) && Blitted(c, x, y, w, Source(src, w, h)).Valid()
  {
    RowsAreWide(src, w, RowsReady(w, |src|, h));
  }

  lemma SameOutcome(now: Canvas, c: Canvas, x: nat, y: nat, w: nat, h: nat, size: nat)
    requires now.width == c.width && now.height == c.height
    ensures BlitOutcome(now, x, y, w, h, size) == BlitOutcome(c, x, y, w, h, size)
  {
  }

  lemma WholeSource(src: seq<Pixel>, w: nat, h: nat)
    requires |src| == At(0, w, h, 0)
    ensures Source(src, w, h) == RowsOf(src, w, h) && Wide(RowsOf(src, w, h), w)
  {
    hide RowsOf, At;
    EnoughRows(w, h, At(0, w, h, 0));
    RowsAreWide(src, w, h);
  }

  /** How much of a whole rectangle lands depends on the canvas's size only. */
  lemma WholeOutcome(now: Canvas, c: Canvas, x: nat, y: nat, w: nat, h: nat)
    requires now.width == c.width && now.height == c.height
    ensures BlitOutcome(now, x, y, w, h, At(0, w, h, 0)) == WriteOutcome(w * h, Visible(c, Rect(x, y, w, h)), false)
  {
    hide At;
    EnoughRows(w, h, At(0, w, h, 0));
  }
}
