/** Accounting of what a run of graphics PDUs could not apply: dropped pixels and dropped updates. */
module GfxAccounts {
  import opened Machine
  import opened Canvas
  import opened Paints
  import opened Surfaces
  import opened Screens
  import opened Gfx
  import opened Grid
  import opened GfxMachine
  import opened GfxRuns
  import SurfaceManagers
  import RP = RegionPaints

  // ---------- Counters ----------

  function Shortfall(os: seq<WriteOutcome>): nat
    decreases |os|
  {
    if os == [] then 0 else os[0].Dropped() + Shortfall(os[1..])
  }

  function Incomplete(os: seq<WriteOutcome>): nat
    decreases |os|
  {
    if os == [] then 0 else (if os[0].Complete() then 0 else 1) + Incomplete(os[1..])
  }

  lemma {:induction false} NotedCounts(st: Stats, os: seq<WriteOutcome>)
    ensures NotedAll(st, os).droppedPixels == st.droppedPixels + Shortfall(os)
    ensures NotedAll(st, os).droppedUpdates == st.droppedUpdates + Incomplete(os)
    ensures os != [] ==> NotedAll(st, os).droppedPixels == st.droppedPixels + os[0].Dropped() + Shortfall(os[1..])
    decreases |os|
  {
    if os != [] {
      NotedCounts(Noted(st, os[0]), os[1..]);
    }
  }

  lemma {:induction false} ShortfallIsZero(os: seq<WriteOutcome>)
    ensures Shortfall(os) == 0 <==> forall o :: o in os ==> o.written >= o.requested
    ensures Incomplete(os) == 0 <==> forall o :: o in os ==> o.Complete()
    decreases |os|
  {
    if os != [] {
      ShortfallIsZero(os[1..]);
      assert forall o :: o in os <==> o == os[0] || o in os[1..];
    }
  }

  /** What a PDU adds to the two counters of dropped work. */
  lemma ApplyCounts(s: State, pdu: Pdu)
    ensures Apply(s, pdu).stats.droppedPixels == s.stats.droppedPixels + Shortfall(EffectOf(s, pdu).checks)
    ensures Apply(s, pdu).stats.droppedUpdates
         == s.stats.droppedUpdates + Incomplete(EffectOf(s, pdu).checks) + EffectOf(s, pdu).losses
  {
    hide EffectOf, NotedAll, Shortfall, Incomplete, Unmapped, Blank;
    var c := Counted(s, pdu);
    EffectIgnoresStats(s, c.stats, pdu);
    NotedCounts(c.stats, EffectOf(s, pdu).checks);
    LifecycleChecksNothing(s, pdu);
  }

  lemma LifecycleChecksNothing(s: State, pdu: Pdu)
    ensures pdu.CapsConfirm? || pdu.ResetGraphics? || pdu.CreateSurface? || pdu.DeleteSurface? || pdu.MapSurfaceToOutput?
            || pdu.StartFrame? || pdu.EndFrame? ==>
              EffectOf(s, pdu).losses == 0 && Shortfall(EffectOf(s, pdu).checks) == 0 && Incomplete(EffectOf(s, pdu).checks) == 0
  {
    hide Draw1, Draw2, DrawFill, DrawCopy, Store, Recall;
  }

  // ---------- Dropped pixels ----------

  /** The shortfalls of everything that passes through `check` in a run. */
  ghost function RunShortfall(s: State, pdus: seq<Pdu>): nat
    decreases |pdus|
  {
    if pdus == [] then 0 else Shortfall(EffectOf(s, pdus[0]).checks) + RunShortfall(Apply(s, pdus[0]), pdus[1..])
  }

  lemma {:induction false} RunAccounts(s: State, pdus: seq<Pdu>)
    ensures ApplyAll(s, pdus).stats.droppedPixels == s.stats.droppedPixels + RunShortfall(s, pdus)
    decreases |pdus|
  {
    hide Apply, EffectOf, Shortfall;
    if pdus != [] {
      ApplyCounts(s, pdus[0]);
      RunAccounts(Apply(s, pdus[0]), pdus[1..]);
    }
  }

  /** No draw or read that passes through `check` fell short; Progressive draws do not pass through it. */
  ghost predicate ChecksWhole(s: State, pdus: seq<Pdu>)
    decreases |pdus|
  {
    pdus == [] ||
    ((forall o :: o in EffectOf(s, pdus[0]).checks ==> o.written >= o.requested) && ChecksWhole(Apply(s, pdus[0]), pdus[1..]))
  }

  /** The pixel counter stands still over a run exactly when nothing that passes through `check` lost a pixel. */
  lemma {:induction false} UnchangedMeansChecksWhole(s: State, pdus: seq<Pdu>)
    ensures ApplyAll(s, pdus).stats.droppedPixels == s.stats.droppedPixels <==> ChecksWhole(s, pdus)
    decreases |pdus|
  {
    hide Apply, EffectOf, Shortfall;
    if pdus != [] {
      var next := Apply(s, pdus[0]);
      ApplyCounts(s, pdus[0]);
      ShortfallIsZero(EffectOf(s, pdus[0]).checks);
      UnchangedMeansChecksWhole(next, pdus[1..]);
      RunAccounts(next, pdus[1..]);
    }
  }

  // ---------- Dropped updates ----------

  ghost predicate BitstreamFits(s: State, id: U16, bitmap: seq<Byte>, x: nat, y: nat)
    requires id in s.screen.surfaces
  {
    var u := s.codecs.progressive(s.base, id, bitmap);
    u.ok && RP.Fits(s.screen.surfaces[id], u, (x, y))
  }

  ghost predicate AppliesDraw(s: State, id: U16, codec: U16, dest: RectU16, bitmap: seq<Byte>) {
    && id in s.screen.surfaces && dest.Size().Some?
    && var (w, h) := dest.Size().value;
       if codec == CODEC_CLEARCODEC then
         s.codecs.clear(bitmap, s.clear, w, h).1.Some? && AllVisible(s.screen.surfaces[id], Rect(dest.left, dest.top, w, h))
       else if codec == CODEC_CAPROGRESSIVE then BitstreamFits(s, id, bitmap, dest.left, dest.top)
       else codec == CODEC_UNCOMPRESSED && |bitmap| >= w * h * 4 && AllVisible(s.screen.surfaces[id], Rect(dest.left, dest.top, w, h))
  }

  ghost predicate StampsFit(c: Canvas, points: seq<Point>, w: nat, h: nat) {
    forall i :: 0 <= i < |points| ==> AllVisible(c, Rect(points[i].x, points[i].y, w, h))
  }

  /**
   A PDU is applied in full: its rectangles have no swapped edges, its surfaces and slots exist,
   its data decodes, and all that it draws or reads lies on the surface.
   */
  ghost predicate Applies(s: State, pdu: Pdu) {
    match pdu
    case WireToSurface1(id, codec, _, dest, bitmap) => AppliesDraw(s, id, codec, dest, bitmap)
    case WireToSurface2(id, codec, bitmap) =>
      id in s.screen.surfaces && codec == CODEC_CAPROGRESSIVE && BitstreamFits(s, id, bitmap, 0, 0)
    case SolidFill(id, _, rects) =>
      id in s.screen.surfaces &&
      forall i :: 0 <= i < |rects| ==>
        rects[i].Size().Some? &&
        AllVisible(s.screen.surfaces[id], Rect(rects[i].left, rects[i].top, rects[i].Size().value.0, rects[i].Size().value.1))
    case SurfaceToSurface(from, rect, to, points) =>
      && rect.Size().Some? && from in s.screen.surfaces && to in s.screen.surfaces
      && AllVisible(s.screen.surfaces[from], Rect(rect.left, rect.top, rect.Size().value.0, rect.Size().value.1))
      && StampsFit(s.screen.surfaces[to], points, rect.Size().value.0, rect.Size().value.1)
    case SurfaceToCache(id, _, rect) =>
      && rect.Size().Some? && id in s.screen.surfaces
      && AllVisible(s.screen.surfaces[id], Rect(rect.left, rect.top, rect.Size().value.0, rect.Size().value.1))
    case CacheToSurface(slot, id, points) =>
      && id in s.screen.surfaces && slot in s.screen.cache
      && StampsFit(s.screen.surfaces[id], points, s.screen.cache[slot].width, s.screen.cache[slot].height)
    case _ => true
  }

  lemma WholeIsComplete(c: Canvas, r: Rect)
    ensures Whole(c, r).Complete() <==> AllVisible(c, r)
  {
    NothingDropped(c, r);
  }

  lemma StampsAreComplete(c: Canvas, points: seq<Point>, w: nat, h: nat)
    ensures Incomplete(SurfaceManagers.StampOutcomes(c, points, w, h)) == 0 <==> StampsFit(c, points, w, h)
  {
    hide AllVisible, Visible;
    var os := SurfaceManagers.StampOutcomes(c, points, w, h);
    ShortfallIsZero(os);
    forall i | 0 <= i < |points|
      ensures os[i].Complete() <==> AllVisible(c, Rect(points[i].x, points[i].y, w, h))
      ensures os[i] in os
    {
      WholeIsComplete(c, Rect(points[i].x, points[i].y, w, h));
    }
  }

  lemma {:induction false} FillsAreComplete(c: Canvas, rects: seq<RectU16>)
    ensures Incomplete(FillChecks(c, rects)) + SwappedRects(rects) == 0 <==>
            forall i :: 0 <= i < |rects| ==>
              rects[i].Size().Some? && AllVisible(c, Rect(rects[i].left, rects[i].top, rects[i].Size().value.0, rects[i].Size().value.1))
    decreases |rects|
  {
    hide AllVisible, Whole;
    if rects != [] {
      FillsAreComplete(c, rects[1..]);
      match rects[0].Size()
      case None =>
      case Some((w, h)) =>
        var r, rest := Rect(rects[0].left, rects[0].top, w, h), FillChecks(c, rects[1..]);
        WholeIsComplete(c, r);
        assert FillChecks(c, rects) == [Whole(c, r)] + rest && ([Whole(c, r)] + rest)[1..] == rest;
        assert forall i :: 0 < i < |rects| ==> rects[1..][i - 1] == rects[i];
    }
  }

  /** A buffer that is long enough is never short of rows. */
  lemma RawIsComplete(c: Canvas, x: nat, y: nat, w: nat, h: nat, bitmap: seq<Byte>)
    requires |bitmap| >= w * h * 4
    ensures BlitOutcome(c, x, y, w, h, |PixelsOf(bitmap)|) == Whole(c, Rect(x, y, w, h))
  {
    AtIs(0, w, h, 0);
    EnoughRows(w, h, |PixelsOf(bitmap)|);
  }

  lemma OneCheck(o: WriteOutcome, rest: seq<WriteOutcome>)
    ensures Incomplete([o] + rest) == (if o.Complete() then 0 else 1) + Incomplete(rest) && Incomplete([]) == 0
    ensures Incomplete([o]) == if o.Complete() then 0 else 1
  {
    assert ([o] + rest)[1..] == rest && [o][1..] == [];
  }

  lemma DrawIsCounted(s: State, id: U16, codec: U16, dest: RectU16, bitmap: seq<Byte>)
    ensures var e := Draw1(s, id, codec, dest, bitmap);
            Incomplete(e.checks) + e.losses == 0 <==> AppliesDraw(s, id, codec, dest, bitmap)
  {
    hide AllVisible, Visible, Whole, BlitOutcome, PixelsOf, RawImage, Painted, PaintAll, AllAt, RP.Fits;
    if dest.Size().Some? && id in s.screen.surfaces {
      var (w, h) := dest.Size().value;
      var c, r := s.screen.surfaces[id], Rect(dest.left, dest.top, w, h);
      WholeIsComplete(c, r);
      OneCheck(Whole(c, r), []);
      if |bitmap| >= w * h * 4 {
        RawIsComplete(c, dest.left, dest.top, w, h, bitmap);
      }
    }
  }

  /** An update is counted as dropped exactly when its PDU is not applied in full. */
  lemma LossIsCounted(s: State, pdu: Pdu)
    ensures Incomplete(EffectOf(s, pdu).checks) + EffectOf(s, pdu).losses == 0 <==> Applies(s, pdu)
  {
    hide Draw1, AppliesDraw, AllVisible, Whole, FillAll, FillChecks, Stamped, Extracted, SurfaceManagers.StampOutcomes,
         StampsFit, PaintAll, AllAt, RP.Fits, Incomplete;
    OneCheck(WriteOutcome(0, 0, false), []);
    match pdu
    case WireToSurface1(id, codec, _, dest, bitmap) => DrawIsCounted(s, id, codec, dest, bitmap);
    case SolidFill(id, _, rects) =>
      if id in s.screen.surfaces {
        FillsAreComplete(s.screen.surfaces[id], rects);
      }
    case SurfaceToSurface(from, rect, to, points) =>
      if rect.Size().Some? && from in s.screen.surfaces && to in s.screen.surfaces {
        var (w, h) := rect.Size().value;
        var r := Rect(rect.left, rect.top, w, h);
        WholeIsComplete(s.screen.surfaces[from], r);
        StampsAreComplete(s.screen.surfaces[to], points, w, h);
        OneCheck(Whole(s.screen.surfaces[from], r), SurfaceManagers.StampOutcomes(s.screen.surfaces[to], points, w, h));
      }
    case SurfaceToCache(id, _, rect) =>
      if rect.Size().Some? && id in s.screen.surfaces {
        var r := Rect(rect.left, rect.top, rect.Size().value.0, rect.Size().value.1);
        WholeIsComplete(s.screen.surfaces[id], r);
        OneCheck(Whole(s.screen.surfaces[id], r), []);
      }
    case CacheToSurface(slot, id, points) =>
      if id in s.screen.surfaces && slot in s.screen.cache {
        StampsAreComplete(s.screen.surfaces[id], points, s.screen.cache[slot].width, s.screen.cache[slot].height);
      }
    case _ =>
  }

  /** Every entry of a message parsed and every PDU was applied in full. */
  ghost predicate AllApplied(s: State, es: seq<Entry>)
    decreases |es|
  {
    es == [] || (es[0].Parsed? && Applies(s, es[0].pdu) && AllApplied(Apply(s, es[0].pdu), es[1..]))
  }

  lemma {:induction false} UpdatesOnlyGrow(s: State, es: seq<Entry>)
    ensures ApplyEntries(s, es).stats.droppedUpdates >= s.stats.droppedUpdates
    decreases |es|
  {
    hide Apply, EffectOf;
    if es != [] {
      match es[0]
      case Parsed(pdu) =>
        ApplyCounts(s, pdu);
        UpdatesOnlyGrow(Apply(s, pdu), es[1..]);
      case Failed(_) => UpdatesOnlyGrow(Shifted(s, 1), es[1..]);
    }
  }

  /**
   Over any run of messages the counter of dropped updates stands still exactly when every
   PDU parsed and was applied in full, Progressive bitstreams included.
   */
  lemma {:induction false} UnchangedMeansAllApplied(s: State, es: seq<Entry>)
    ensures ApplyEntries(s, es).stats.droppedUpdates == s.stats.droppedUpdates <==> AllApplied(s, es)
    decreases |es|
  {
    hide Apply, EffectOf, Applies, Incomplete;
    if es != [] {
      match es[0]
      case Parsed(pdu) =>
        ApplyCounts(s, pdu);
        LossIsCounted(s, pdu);
        UpdatesOnlyGrow(Apply(s, pdu), es[1..]);
        UnchangedMeansAllApplied(Apply(s, pdu), es[1..]);
      case Failed(_) => UpdatesOnlyGrow(Shifted(s, 1), es[1..]);
    }
  }

  // ---------- Where the two counters differ ----------

  /** A Progressive bitstream never moves the pixel counter, whatever of it is clipped; it moves the update counter instead. */
  lemma ProgressiveIsNotChecked(s: State, id: U16, bitmap: seq<Byte>)
    requires id in s.screen.surfaces
    ensures var t := Apply(s, WireToSurface2(id, CODEC_CAPROGRESSIVE, bitmap));
            && t.stats.droppedPixels == s.stats.droppedPixels
            && t.stats.droppedUpdates == s.stats.droppedUpdates + if BitstreamFits(s, id, bitmap, 0, 0) then 0 else 1
  {
    hide PaintAll, AllAt, RP.Fits;
  }
}
