/** `gfxstate.rs`: the surface state machine over its persistent decoders, proved against module GfxMachine. */
module GfxStates {
  import opened Machine
  import opened Grid
  import opened Pixels
  import opened Canvas
  import opened Surfaces
  import opened Screens
  import opened Gfx
  import opened GfxMachine
  import opened GfxCodecs
  import opened Paints
  import opened SurfaceManagers
  import ClearDecoder
  import ProgressiveDecoder
  import GfxParser
  import GfxRuns
  import C = ClearCodec
  import R = Regions
  import TB = TileBlocks
  import RP = RegionPaints

  class GfxState {
    /** The codecs that the two decoders implement. */
    ghost const codecs: Codecs
    const surfaces: SurfaceManager
    const clearCtx: ClearDecoder.ClearCodecContext
    const progressiveCtx: ProgressiveDecoder.ProgressiveContext
    var outputMap: seq<Mapping>
    var desktop: (U32, U32)
    var framesDecoded: U32
    var currentFrameId: U32
    var sawContent: bool
    var stats: Stats

    ghost predicate Valid()
      reads this, surfaces, clearCtx, progressiveCtx
    {
      surfaces.Valid() && clearCtx.Valid() && progressiveCtx.Valid()
    }

    ghost function View(): (s: State)
      requires Valid()
      reads this, surfaces, surfaces.Arrays(), clearCtx, progressiveCtx
      reads clearCtx.glyphCache, clearCtx.vbarStorage, clearCtx.shortVbarStorage
    {
      State(codecs, surfaces.View(), clearCtx.View(), progressiveCtx.tileBaseline, outputMap, desktop, framesDecoded, currentFrameId,
            sawContent, stats)
    }

    constructor (width: U32, height: U32)
      ensures Valid() && codecs == ClientCodecs() && View() == GfxRuns.Initial(codecs, width, height)
      ensures fresh(surfaces) && fresh(surfaces.Arrays()) && fresh(clearCtx) && fresh(progressiveCtx)
      ensures fresh(clearCtx.glyphCache) && fresh(clearCtx.vbarStorage) && fresh(clearCtx.shortVbarStorage)
    {
      codecs := ClientCodecs();
      surfaces := new SurfaceManager();
      clearCtx := new ClearDecoder.ClearCodecContext();
      progressiveCtx := new ProgressiveDecoder.ProgressiveContext();
      outputMap := [];
      desktop := (width, height);
      framesDecoded := 0;
      currentFrameId := 0;
      sawContent := false;
      stats := Stats(0, 0, 0, 0, 0, 0, 0, 0, 0, 0, 0, 0, 0);
    }

    // ---------- Reporting ----------

    method Check(outcome: WriteOutcome)
      modifies this`stats
      ensures stats == Noted(old(stats), outcome)
    {
      if outcome.Complete() {
        return;
      }
      stats := stats.(droppedUpdates := stats.droppedUpdates + 1, droppedPixels := stats.droppedPixels + outcome.Dropped());
    }

    method CheckAll(outcomes: seq<WriteOutcome>)
      modifies this`stats
      ensures stats == NotedAll(old(stats), outcomes)
    {
      assert outcomes[0..] == outcomes;
      for i := 0 to |outcomes|
        invariant NotedAll(old(stats), outcomes) == NotedAll(stats, outcomes[i..])
      {
        assert outcomes[i..][1..] == outcomes[i + 1..];
        Check(outcomes[i]);
      }
    }

    method Drop()
      modifies this`stats
      ensures stats == Dropped(old(stats))
    {
      stats := stats.(droppedUpdates := stats.droppedUpdates + 1);
    }

    // ---------- Surfaces and outputs ----------

    method Unmap(id: U16)
      modifies this`outputMap
      ensures outputMap == Unmapped(old(outputMap), id)
    {
      var kept: seq<Mapping> := [];
      assert outputMap[0..] == outputMap;
      for i := 0 to |outputMap|
        invariant Unmapped(outputMap, id) == kept + Unmapped(outputMap[i..], id)
      {
        assert outputMap[i..][1..] == outputMap[i + 1..];
        if outputMap[i].surface != id {
          kept := kept + [outputMap[i]];
        }
      }
      assert kept + [] == kept;
      outputMap := kept;
    }

    method ResetGraphics(width: U32, height: U32)
      requires Valid()
      modifies this, progressiveCtx
      ensures Valid() && View() == Reset(old(View()), width, height)
    {
      hide SurfaceManager.View, ClearDecoder.ClearCodecContext.View, ClearDecoder.ClearCodecContext.Caches;
      hide TB.AllValid, C.State.Valid, SurfaceManager.Valid, ClearDecoder.ClearCodecContext.Valid, ProgressiveDecoder.ProgressiveContext.Valid;
      desktop := (width, height);
      outputMap := [];
      progressiveCtx.ResetAll();
      assert surfaces.Arrays() == old(surfaces.Arrays());
    }

    method CreateSurface(id: U16, w: U16, h: U16)
      requires Valid()
      modifies this, surfaces, progressiveCtx
      ensures Valid() && fresh(surfaces.Arrays() - old(surfaces.Arrays())) && View() == Create(old(View()), id, w, h)
    {
      hide SurfaceManager.View, ClearDecoder.ClearCodecContext.View, ClearDecoder.ClearCodecContext.Caches;
      hide TB.AllValid, C.State.Valid, SurfaceManager.Valid, ClearDecoder.ClearCodecContext.Valid, ProgressiveDecoder.ProgressiveContext.Valid;
      hide R.Without, Blank;
      progressiveCtx.ResetSurface(id);
      surfaces.Create(id, w, h);
    }

    method DeleteSurface(id: U16)
      requires Valid()
      modifies this, surfaces, progressiveCtx
      ensures Valid() && surfaces.Arrays() <= old(surfaces.Arrays()) && View() == Delete(old(View()), id)
    {
      hide SurfaceManager.View, ClearDecoder.ClearCodecContext.View, ClearDecoder.ClearCodecContext.Caches;
      hide TB.AllValid, C.State.Valid, SurfaceManager.Valid, ClearDecoder.ClearCodecContext.Valid, ProgressiveDecoder.ProgressiveContext.Valid;
      hide R.Without, Unmapped;
      var existed := surfaces.Delete(id);
      progressiveCtx.ResetSurface(id);
      Unmap(id);
    }

    method MapSurfaceToOutput(id: U16, x: U32, y: U32)
      requires Valid()
      modifies this`outputMap
      ensures Valid() && View() == MapOutput(old(View()), id, x, y)
    {
      hide SurfaceManager.View, ClearDecoder.ClearCodecContext.View, ClearDecoder.ClearCodecContext.Caches;
      hide TB.AllValid, C.State.Valid, SurfaceManager.Valid, ClearDecoder.ClearCodecContext.Valid, ProgressiveDecoder.ProgressiveContext.Valid;
      hide Unmapped;
      Unmap(id);
      outputMap := outputMap + [Mapping(id, x, y)];
      assert surfaces.Arrays() == old(surfaces.Arrays());
    }

    method StartFrame(frame: U32)
      requires Valid()
      modifies this`currentFrameId
      ensures Valid() && View() == old(View()).(currentFrame := frame)
    {
      hide SurfaceManager.View, ClearDecoder.ClearCodecContext.View, ClearDecoder.ClearCodecContext.Caches;
      hide TB.AllValid, C.State.Valid, SurfaceManager.Valid, ClearDecoder.ClearCodecContext.Valid, ProgressiveDecoder.ProgressiveContext.Valid;
      currentFrameId := frame;
      assert surfaces.Arrays() == old(surfaces.Arrays());
    }

    method EndFrame(frame: U32) returns (action: Action)
      requires Valid()
      modifies this`framesDecoded, this`stats
      ensures Valid() && View() == EndedFrame(old(View())) && action == Acknowledge(frame, View().frames)
    {
      hide SurfaceManager.View, ClearDecoder.ClearCodecContext.View, ClearDecoder.ClearCodecContext.Caches;
      hide TB.AllValid, C.State.Valid, SurfaceManager.Valid, ClearDecoder.ClearCodecContext.Valid, ProgressiveDecoder.ProgressiveContext.Valid;
      framesDecoded := (framesDecoded + 1) % 0x1_0000_0000;
      stats := stats.(frames := stats.frames + 1);
      assert surfaces.Arrays() == old(surfaces.Arrays());
      action := Acknowledge(frame, framesDecoded);
    }

    method EvictCacheEntry(slot: U16)
      requires Valid()
      modifies surfaces`cache
      ensures Valid() && View() == Effected(old(View()), Nothing(old(View())).(screen := Evicted(old(View()).screen, slot)))
    {
      hide SurfaceManager.View, ClearDecoder.ClearCodecContext.View, ClearDecoder.ClearCodecContext.Caches;
      hide TB.AllValid, C.State.Valid, SurfaceManager.Valid, ClearDecoder.ClearCodecContext.Valid, ProgressiveDecoder.ProgressiveContext.Valid;
      var existed := surfaces.EvictCacheEntry(slot);
      assert surfaces.Arrays() == old(surfaces.Arrays());
    }

    // ---------- Drawing ----------

    method DecodeClearOn(id: U16, bitmap: seq<Byte>, x: U16, y: U16, w: U16, h: U16) returns (r: Option<WriteOutcome>)
      requires Valid() && id in surfaces.surfaces
      modifies surfaces.Arrays(), clearCtx, clearCtx.glyphCache, clearCtx.vbarStorage, clearCtx.shortVbarStorage
      ensures surfaces.Valid() && clearCtx.Valid()
      ensures var c, (state, image) := old(surfaces.View()).surfaces[id], ClearPicture(bitmap, old(clearCtx.View()), w, h);
              && clearCtx.View() == state
              && match image
                 case None => r.None? && surfaces.View() == old(surfaces.View())
                 case Some(im) =>
                   && r == Some(Whole(c, Rect(x, y, w, h)))
                   && surfaces.View() == SetCanvas(old(surfaces.View()), id, Painted(c, Paint(x, y, im)))
    {
      hide C.Decode, Blitted, OpaqueRows, Visible, RowsOf, ClearDecoder.ClearCodecContext.View, ClearDecoder.ClearCodecContext.Caches;
      hide At, C.State.Valid, TB.AllValid, ProgressiveDecoder.ProgressiveContext.Valid, GfxState.View;
      var surface := surfaces.surfaces[id];
      ghost var before := surfaces.View();
      r := clearCtx.Decompress(bitmap, surface, x, y, w, h);
      Replaced(before.surfaces, surfaces.View().surfaces, id, surface.View());
      SameVisible(surface.View(), before.surfaces[id], Rect(x, y, w, h));
    }

    method DrawClearCodec(id: U16, bitmap: seq<Byte>, x: U16, y: U16, w: U16, h: U16)
      requires codecs == ClientCodecs()
      requires Valid() && id in surfaces.surfaces
      modifies this`stats, this`sawContent, surfaces.Arrays(), clearCtx
      modifies clearCtx.glyphCache, clearCtx.vbarStorage, clearCtx.shortVbarStorage
      ensures Valid() && View() == Effected(old(View()), DrawClear(old(View()), id, bitmap, x, y, w, h).(seen := true))
    {
      hide GfxState.View, SurfaceManager.View, SurfaceManager.Valid;
      hide ClearDecoder.ClearCodecContext.View, ClearDecoder.ClearCodecContext.Valid, ProgressiveDecoder.ProgressiveContext.Valid;
      hide ClearPicture, ClientCodecs, Painted, Whole, Noted, NotedAll, SetCanvas, DroppedMany, Dropped;
      Fields();
      ClientClear(bitmap, clearCtx.View(), w, h);
      var r := DecodeClearOn(id, bitmap, x, y, w, h);
      assert surfaces.Arrays() == old(surfaces.Arrays());
      Settle(r.None?, r);
      Fields();
    }

    method DecodeProgressiveOn(id: U16, bitmap: seq<Byte>, x: U16, y: U16) returns (ok: bool)
      requires Valid() && id in surfaces.surfaces
      modifies surfaces.Arrays(), progressiveCtx
      ensures surfaces.Valid() && progressiveCtx.Valid()
      ensures var u, c := ProgressiveUpdate(old(progressiveCtx.tileBaseline), id, bitmap), old(surfaces.View()).surfaces[id];
              && progressiveCtx.tileBaseline == u.base && ok == (u.ok && RP.Fits(c, u, (x, y)))
              && surfaces.View() == SetCanvas(old(surfaces.View()), id, PaintAll(c, AllAt(u.paints, (x, y))))
    {
      hide R.DecodeStream, RP.StreamUpdate, RP.Fits, PaintAll, AllAt, RowsOf;
      var surface := surfaces.surfaces[id];
      ghost var before := surfaces.View();
      RP.StreamIsItsUpdate(progressiveCtx.tileBaseline, id, bitmap, 0, before.surfaces[id], (x, y));
      ok := progressiveCtx.DecompressAt(id, bitmap, surface, (x, y));
      Replaced(before.surfaces, surfaces.View().surfaces, id, surface.View());
    }

    method DrawProgressiveCodec(id: U16, bitmap: seq<Byte>, x: U16, y: U16)
      requires codecs == ClientCodecs()
      requires Valid() && id in surfaces.surfaces
      modifies this`stats, this`sawContent, surfaces.Arrays(), progressiveCtx
      ensures Valid() && View() == Effected(old(View()), DrawProgressive(old(View()), id, bitmap, x, y).(seen := true))
    {
      hide GfxState.View, SurfaceManager.View, SurfaceManager.Valid;
      hide ClearDecoder.ClearCodecContext.View, ClearDecoder.ClearCodecContext.Valid, ProgressiveDecoder.ProgressiveContext.Valid;
      hide ProgressiveUpdate, ClientCodecs, RP.Fits, PaintAll, AllAt, NotedAll, SetCanvas, DroppedMany, Dropped;
      Fields();
      ClientProgressive(progressiveCtx.tileBaseline, id, bitmap);
      var ok := DecodeProgressiveOn(id, bitmap, x, y);
      assert surfaces.Arrays() == old(surfaces.Arrays());
      Settle(!ok, None);
      Fields();
    }

    method DrawUncompressed(id: U16, bitmap: seq<Byte>, x: U16, y: U16, w: U16, h: U16)
      requires Valid() && id in surfaces.surfaces
      modifies this`stats, this`sawContent, surfaces.Arrays()
      ensures Valid() && View() == Effected(old(View()), DrawRaw(old(View()), id, bitmap, x, y, w, h).(seen := true))
    {
      hide *;
      Known(id);
      RawIs(View(), id, bitmap, x, y, w, h);
      if |bitmap| < w * h * 4 {
        LoseAndSee();
      } else {
        BlitUncompressed(id, bitmap, x, y, w, h);
      }
    }

    method BlitUncompressed(id: U16, bitmap: seq<Byte>, x: U16, y: U16, w: U16, h: U16)
      requires Valid() && id in View().screen.surfaces
      modifies this`stats, this`sawContent, surfaces.Arrays()
      ensures Valid() && View() == Effected(old(View()), RawDrawn(old(View()), id, bitmap, x, y, w, h).(seen := true))
    {
      hide GfxState.View, SurfaceManager.View, SurfaceManager.Valid;
      hide ClearDecoder.ClearCodecContext.View, ClearDecoder.ClearCodecContext.Valid, ProgressiveDecoder.ProgressiveContext.Valid;
      hide RawImage, PixelsOf, BlitOutcome, Painted, NotedAll, DroppedMany, SetCanvas, SurfaceManager.Arrays;
      Fields();
      BlitApart(id, bitmap, x, y, w, h);
      Fields();
    }

    /** Blitting leaves the decoders alone. */
    method BlitApart(id: U16, bitmap: seq<Byte>, x: U16, y: U16, w: U16, h: U16)
      requires surfaces.Valid() && clearCtx.Valid() && progressiveCtx.Valid() && id in surfaces.surfaces
      modifies this`stats, this`sawContent, surfaces.Arrays()
      ensures surfaces.Valid() && clearCtx.Valid() && progressiveCtx.Valid()
      ensures sawContent && clearCtx.View() == old(clearCtx.View())
      ensures var c := old(surfaces.View()).surfaces[id];
              && stats == DroppedMany(NotedAll(old(stats), [BlitOutcome(c, x, y, w, h, |PixelsOf(bitmap)|)]), 0)
              && surfaces.View() == SetCanvas(old(surfaces.View()), id, Painted(c, Paint(x, y, RawImage(bitmap, w, h))))
    {
      hide *;
      BlitOn(id, bitmap, x, y, w, h);
    }

    method BlitOn(id: U16, bitmap: seq<Byte>, x: U16, y: U16, w: U16, h: U16)
      requires surfaces.Valid() && id in surfaces.surfaces
      modifies this`stats, this`sawContent, surfaces.Arrays()
      ensures surfaces.Valid() && sawContent
      ensures var c := old(surfaces.View()).surfaces[id];
              && stats == DroppedMany(NotedAll(old(stats), [BlitOutcome(c, x, y, w, h, |PixelsOf(bitmap)|)]), 0)
              && surfaces.View() == SetCanvas(old(surfaces.View()), id, Painted(c, Paint(x, y, RawImage(bitmap, w, h))))
    {
      hide SurfaceManager.View, SurfaceManager.Valid, Blitted, Source, BlitOutcome, PixelsOf, RawImage, Painted, NotedAll, DroppedMany;
      var outcome := surfaces.Blit(id, x, y, w, h, PixelsOf(bitmap));
      RawPaint(old(surfaces.View()).surfaces[id], x, y, bitmap, w, h);
      Settle(false, Some(outcome));
      assert surfaces.Arrays() == old(surfaces.Arrays());
    }

    method WireToSurface1(id: U16, codec: U16, dest: RectU16, bitmap: seq<Byte>)
      requires codecs == ClientCodecs()
      requires Valid()
      modifies this, surfaces.Arrays(), progressiveCtx, clearCtx
      modifies clearCtx.glyphCache, clearCtx.vbarStorage, clearCtx.shortVbarStorage
      ensures Valid() && View() == Effected(old(View()), Draw1(old(View()), id, codec, dest, bitmap))
    {
      hide GfxState.View, GfxState.Valid, SurfaceManager.Arrays, Effected;
      hide DrawClear, DrawProgressive, DrawRaw, RowsOf;
      Known(id);
      var size := dest.Size();
      if size.None? || id !in surfaces.surfaces {
        LoseUpdate();
        return;
      }
      var (w, h) := size.value;
      if codec == CODEC_CLEARCODEC {
        DrawClearCodec(id, bitmap, dest.left, dest.top, w, h);
      } else if codec == CODEC_CAPROGRESSIVE {
        DrawProgressiveCodec(id, bitmap, dest.left, dest.top);
      } else if codec == CODEC_UNCOMPRESSED {
        DrawUncompressed(id, bitmap, dest.left, dest.top, w, h);
      } else {
        LoseAndSee();
      }
    }

    /** What the state consists of. */
    lemma Fields()
      requires Valid()
      ensures var s := View();
              && s.codecs == codecs && s.screen == surfaces.View() && s.clear == clearCtx.View()
              && s.base == progressiveCtx.tileBaseline && s.outputs == outputMap && s.desktop == desktop
              && s.frames == framesDecoded && s.currentFrame == currentFrameId && s.sawContent == sawContent && s.stats == stats
    {
    }

    /** Something was drawn or at least meant to be: counts it. */
    method Settle(lost: bool, outcome: Option<WriteOutcome>)
      modifies this`stats, this`sawContent
      ensures sawContent
      ensures stats == DroppedMany(NotedAll(old(stats), if outcome.Some? then [outcome.value] else []), if lost then 1 else 0)
    {
      NotedNone(stats);
      if outcome.Some? {
        NotedOne(stats, outcome.value);
        Check(outcome.value);
      }
      if lost {
        Drop();
      }
      sawContent := true;
    }

    lemma Known(id: U16)
      requires Valid()
      ensures View().screen == surfaces.View() && (id in View().screen.surfaces <==> id in surfaces.surfaces)
    {
    }

    method LoseUpdate()
      requires Valid()
      modifies this`stats
      ensures Valid() && View() == Effected(old(View()), Loss(old(View())))
    {
      hide SurfaceManager.View, ClearDecoder.ClearCodecContext.View, ClearDecoder.ClearCodecContext.Caches;
      hide TB.AllValid, C.State.Valid, SurfaceManager.Valid, ClearDecoder.ClearCodecContext.Valid, ProgressiveDecoder.ProgressiveContext.Valid;
      Drop();
      assert surfaces.Arrays() == old(surfaces.Arrays());
    }

    /** A codec that is not implemented still counts as content. */
    method LoseAndSee()
      requires Valid()
      modifies this`stats, this`sawContent
      ensures Valid() && View() == Effected(old(View()), Loss(old(View())).(seen := true))
    {
      hide SurfaceManager.View, ClearDecoder.ClearCodecContext.View, ClearDecoder.ClearCodecContext.Caches;
      hide TB.AllValid, C.State.Valid, SurfaceManager.Valid, ClearDecoder.ClearCodecContext.Valid, ProgressiveDecoder.ProgressiveContext.Valid;
      Drop();
      sawContent := true;
      assert surfaces.Arrays() == old(surfaces.Arrays());
    }

    method WireToSurface2(id: U16, codec: U16, bitmap: seq<Byte>)
      requires codecs == ClientCodecs()
      requires Valid()
      modifies this, surfaces.Arrays(), progressiveCtx
      ensures Valid() && View() == Effected(old(View()), Draw2(old(View()), id, codec, bitmap))
    {
      hide GfxState.View, GfxState.Valid, SurfaceManager.Arrays, Effected, DrawProgressive;
      Known(id);
      if id !in surfaces.surfaces || codec != CODEC_CAPROGRESSIVE {
        LoseUpdate();
        return;
      }
      SeenProgressive(View(), id, bitmap, 0, 0);
      DrawProgressiveCodec(id, bitmap, 0, 0);
    }

    method SolidFill(id: U16, colour: seq<Byte>, rects: seq<RectU16>)
      requires Valid()
      modifies this, surfaces.Arrays()
      ensures Valid() && View() == Effected(old(View()), DrawFill(old(View()), id, colour, rects))
    {
      hide GfxState.View, GfxState.Valid, SurfaceManager.Arrays, FillAll, FillStats, OpaqueColour, SetCanvas, Effected, DrawFill;
      Known(id);
      FillEffect(View(), id, colour, rects);
      if id !in surfaces.surfaces {
        LoseUpdate();
      } else {
        FillKnown(id, OpaqueColour(colour), rects);
      }
    }

    static ghost function Filling(s: State, id: U16, bgra: Pixel, rects: seq<RectU16>): State
      requires id in s.screen.surfaces
    {
      var c := s.screen.surfaces[id];
      s.(screen := SetCanvas(s.screen, id, FillAll(c, rects, bgra)), sawContent := true, stats := FillStats(s.stats, c, rects))
    }

    method FillKnown(id: U16, bgra: Pixel, rects: seq<RectU16>)
      requires Valid() && id in View().screen.surfaces
      modifies this`stats, this`sawContent, surfaces.Arrays()
      ensures Valid() && View() == Filling(old(View()), id, bgra, rects)
    {
      hide GfxState.View, SurfaceManager.View, SurfaceManager.Valid;
      hide ClearDecoder.ClearCodecContext.View, ClearDecoder.ClearCodecContext.Valid, ProgressiveDecoder.ProgressiveContext.Valid;
      hide FillAll, FillStats, SetCanvas, SurfaceManager.Arrays;
      Fields();
      FillApart(id, bgra, rects);
      Fields();
    }

    /** Filling leaves the decoders alone. */
    method FillApart(id: U16, bgra: Pixel, rects: seq<RectU16>)
      requires surfaces.Valid() && clearCtx.Valid() && progressiveCtx.Valid() && id in surfaces.surfaces
      modifies this`stats, this`sawContent, surfaces.Arrays()
      ensures surfaces.Valid() && clearCtx.Valid() && progressiveCtx.Valid()
      ensures sawContent && clearCtx.View() == old(clearCtx.View())
      ensures stats == FillStats(old(stats), old(surfaces.View()).surfaces[id], rects)
      ensures surfaces.View() == SetCanvas(old(surfaces.View()), id, FillAll(old(surfaces.View()).surfaces[id], rects, bgra))
    {
      hide *;
      sawContent := true;
      FillOn(id, bgra, rects);
    }

    method FillOn(id: U16, bgra: Pixel, rects: seq<RectU16>)
      requires surfaces.Valid() && id in surfaces.surfaces
      modifies this`stats, surfaces.Arrays()
      ensures surfaces.Valid()
      ensures var c := old(surfaces.View()).surfaces[id];
              && stats == FillStats(old(stats), c, rects)
              && surfaces.View() == SetCanvas(old(surfaces.View()), id, FillAll(c, rects, bgra))
    {
      hide FillAll, FillStats, RowsOf;
      ghost var before := surfaces.View();
      FillEach(surfaces.surfaces[id], bgra, rects);
      Replaced(before.surfaces, surfaces.View().surfaces, id, surfaces.surfaces[id].View());
    }

    method FillEach(surface: Surface, bgra: Pixel, rects: seq<RectU16>)
      requires surface.Valid()
      modifies this`stats, surface.pixels
      ensures surface.View() == FillAll(old(surface.View()), rects, bgra) && stats == FillStats(old(stats), old(surface.View()), rects)
    {
      hide FillAll, FillStats, Filled, Visible, RowsOf, Noted, Dropped;
      ghost var c := surface.View();
      assert rects[0..] == rects;
      for i := 0 to |rects|
        invariant FillAll(c, rects, bgra) == FillAll(surface.View(), rects[i..], bgra)
        invariant FillStats(old(stats), c, rects) == FillStats(stats, c, rects[i..])
      {
        assert rects[i..][1..] == rects[i + 1..];
        FillStep(surface.View(), c, stats, rects[i..], bgra);
        var size := rects[i].Size();
        if size.None? {
          Drop();
        } else {
          var (w, h) := size.value;
          ghost var r := Rect(rects[i].left, rects[i].top, w, h);
          SameVisible(Filled(surface.View(), r, bgra), c, r);
          var outcome := surface.FillRect(rects[i].left, rects[i].top, w, h, bgra);
          Check(outcome);
        }
      }
      FillEnd(surface.View(), c, stats, rects[|rects|..], bgra);
    }

    method Extract(id: U16, r: Rect) returns (buffer: seq<Pixel>, outcome: WriteOutcome)
      requires Valid() && id in surfaces.surfaces
      ensures id in surfaces.View().surfaces && |buffer| == At(0, r.w, r.h, 0)
      ensures RowsOf(buffer, r.w, r.h) == Extracted(surfaces.View().surfaces[id], r) && outcome == Whole(surfaces.View().surfaces[id], r)
    {
      hide Extracted, Visible, RowsOf, At;
      buffer, outcome := surfaces.surfaces[id].ExtractRect(r.x, r.y, r.w, r.h);
    }

    /** The source is read into a buffer of its own before the destination is touched. */
    method SurfaceToSurface(from: U16, rect: RectU16, to: U16, points: seq<Point>)
      requires Valid()
      modifies this, surfaces.Arrays()
      ensures Valid() && View() == Effected(old(View()), DrawCopy(old(View()), from, rect, to, points))
    {
      hide GfxState.View, GfxState.Valid, SurfaceManager.View, SurfaceManager.Valid;
      hide Stamped, Extracted, Whole, Noted, NotedAll, StampOutcomes, RowsOf, At;
      Known(from);
      Known(to);
      var size := rect.Size();
      if size.None? || from !in surfaces.surfaces {
        LoseUpdate();
        return;
      }
      var (w, h) := size.value;
      var extracted, outcome := Extract(from, Rect(rect.left, rect.top, w, h));
      assert surfaces.Arrays() == old(surfaces.Arrays());
      assert View() == old(View());
      NotedOne(View().stats, outcome);
      NotedNone(Noted(View().stats, outcome));
      Note(outcome);
      if to !in surfaces.surfaces {
        LoseUpdate();
      } else {
        StampOnto(to, w, h, extracted, points, Canvas(w, h, RowsOf(extracted, w, h)));
      }
    }

    method Note(outcome: WriteOutcome)
      requires Valid()
      modifies this`stats
      ensures Valid() && View() == old(View()).(stats := Noted(old(View()).stats, outcome))
    {
      hide SurfaceManager.View, ClearDecoder.ClearCodecContext.View, ClearDecoder.ClearCodecContext.Caches;
      hide TB.AllValid, C.State.Valid, SurfaceManager.Valid, ClearDecoder.ClearCodecContext.Valid, ProgressiveDecoder.ProgressiveContext.Valid;
      Check(outcome);
      assert surfaces.Arrays() == old(surfaces.Arrays());
    }

    static ghost function Stamping(s: State, to: U16, points: seq<Point>, image: Image): State
      requires to in s.screen.surfaces
    {
      var c := s.screen.surfaces[to];
      s.(screen := SetCanvas(s.screen, to, Stamped(c, points, image.width, image.rows)), sawContent := true,
         stats := NotedAll(s.stats, StampOutcomes(c, points, image.width, image.height)))
    }

    method StampOnto(to: U16, w: U16, h: U16, src: seq<Pixel>, points: seq<Point>, ghost image: Image)
      requires Valid() && to in View().screen.surfaces && |src| == At(0, w, h, 0) && image == Canvas(w, h, RowsOf(src, w, h))
      modifies this`stats, this`sawContent, surfaces.Arrays()
      ensures Valid() && View() == Stamping(old(View()), to, points, image)
    {
      hide GfxState.View, SurfaceManager.View, SurfaceManager.Valid;
      hide ClearDecoder.ClearCodecContext.View, ClearDecoder.ClearCodecContext.Valid, ProgressiveDecoder.ProgressiveContext.Valid;
      hide Stamped, NotedAll, StampOutcomes, RowsOf, At, SetCanvas, SurfaceManager.Arrays;
      Fields();
      StampApart(to, w, h, src, points);
      Fields();
    }

    /** Stamping leaves the decoders alone. */
    method StampApart(to: U16, w: U16, h: U16, src: seq<Pixel>, points: seq<Point>)
      requires surfaces.Valid() && clearCtx.Valid() && progressiveCtx.Valid() && to in surfaces.surfaces && |src| == At(0, w, h, 0)
      modifies this`stats, this`sawContent, surfaces.Arrays()
      ensures surfaces.Valid() && clearCtx.Valid() && progressiveCtx.Valid()
      ensures sawContent && clearCtx.View() == old(clearCtx.View()) && Wide(RowsOf(src, w, h), w)
      ensures stats == NotedAll(old(stats), StampOutcomes(old(surfaces.View()).surfaces[to], points, w, h))
      ensures surfaces.View() == SetCanvas(old(surfaces.View()), to, Stamped(old(surfaces.View()).surfaces[to], points, w, RowsOf(src, w, h)))
    {
      hide *;
      sawContent := true;
      StampEach(to, w, h, src, points);
    }

    method StampEach(to: U16, w: U16, h: U16, src: seq<Pixel>, points: seq<Point>)
      requires surfaces.Valid() && to in surfaces.surfaces && |src| == At(0, w, h, 0)
      modifies this`stats, surfaces.Arrays()
      ensures surfaces.Valid() && Wide(RowsOf(src, w, h), w)
      ensures var c := old(surfaces.View()).surfaces[to];
              && surfaces.View() == SetCanvas(old(surfaces.View()), to, Stamped(c, points, w, RowsOf(src, w, h)))
              && stats == NotedAll(old(stats), StampOutcomes(c, points, w, h))
    {
      hide SurfaceManager.View, SurfaceManager.Valid, Stamped, NotedAll, StampOutcomes, RowsOf, At;
      var outcomes := surfaces.Stamp(to, w, h, src, points);
      CheckAll(outcomes);
      assert surfaces.Arrays() == old(surfaces.Arrays());
    }

    method SurfaceToCache(id: U16, slot: U16, rect: RectU16)
      requires Valid()
      modifies this, surfaces`cache
      ensures Valid() && View() == Effected(old(View()), Store(old(View()), id, slot, rect))
    {
      hide GfxState.View, SurfaceManager.View, SurfaceManager.Valid;
      hide ClearDecoder.ClearCodecContext.View, ClearDecoder.ClearCodecContext.Valid, ProgressiveDecoder.ProgressiveContext.Valid;
      hide Store, Effected, Cached, Whole, Noted, SurfaceManager.Arrays;
      StoreIs(View(), id, slot, rect);
      var size := rect.Size();
      if size.None? {
        LoseUpdate();
        return;
      }
      var (w, h) := size.value;
      Fields();
      StoreApart(id, slot, rect.left, rect.top, w, h);
      Fields();
    }

    /** Storing leaves the decoders alone. */
    method StoreApart(id: U16, slot: U16, x: U16, y: U16, w: U16, h: U16)
      requires surfaces.Valid() && clearCtx.Valid() && progressiveCtx.Valid()
      modifies this`stats, surfaces`cache
      ensures surfaces.Valid() && clearCtx.Valid() && progressiveCtx.Valid() && surfaces.Arrays() == old(surfaces.Arrays())
      ensures clearCtx.View() == old(clearCtx.View())
      ensures var screen, r := old(surfaces.View()), Rect(x, y, w, h);
              if id in screen.surfaces then
                stats == Noted(old(stats), Whole(screen.surfaces[id], r)) && surfaces.View() == Cached(screen, id, slot, r)
              else stats == Dropped(old(stats)) && surfaces.View() == screen
    {
      hide *;
      StoreOn(id, slot, x, y, w, h);
    }

    method StoreOn(id: U16, slot: U16, x: U16, y: U16, w: U16, h: U16)
      requires surfaces.Valid()
      modifies this`stats, surfaces`cache
      ensures surfaces.Valid() && surfaces.Arrays() == old(surfaces.Arrays())
      ensures var screen, r := old(surfaces.View()), Rect(x, y, w, h);
              if id in screen.surfaces then
                stats == Noted(old(stats), Whole(screen.surfaces[id], r)) && surfaces.View() == Cached(screen, id, slot, r)
              else stats == Dropped(old(stats)) && surfaces.View() == screen
    {
      hide SurfaceManager.View, SurfaceManager.Valid, Extracted, RowsOf, Noted, Visible;
      Held(id);
      var outcome := surfaces.SurfaceToCache(id, slot, x, y, w, h);
      if outcome.None? {
        Drop();
      } else {
        Check(outcome.value);
      }
      assert surfaces.Arrays() == old(surfaces.Arrays());
    }

    lemma Held(id: U16)
      requires surfaces.Valid()
      ensures id in surfaces.View().surfaces <==> id in surfaces.surfaces
    {
    }

    method CacheToSurface(slot: U16, id: U16, points: seq<Point>)
      requires Valid()
      modifies this, surfaces.Arrays()
      ensures Valid() && View() == Effected(old(View()), Recall(old(View()), slot, id, points))
    {
      hide GfxState.View, SurfaceManager.View, SurfaceManager.Valid;
      hide ClearDecoder.ClearCodecContext.View, ClearDecoder.ClearCodecContext.Valid, ProgressiveDecoder.ProgressiveContext.Valid;
      hide Recalled, NotedAll, StampOutcomes, Dropped, Effected, Recall, Loss, SurfaceManager.Arrays;
      Known(id);
      RecallEffect(View(), slot, id, points);
      if id !in surfaces.surfaces {
        LoseUpdate();
        return;
      }
      Fields();
      RecallApart(slot, id, points);
      Fields();
    }

    /** Recalling leaves the decoders alone. */
    method RecallApart(slot: U16, id: U16, points: seq<Point>)
      requires surfaces.Valid() && clearCtx.Valid() && progressiveCtx.Valid() && id in surfaces.surfaces
      modifies this`stats, this`sawContent, surfaces.Arrays()
      ensures surfaces.Valid() && clearCtx.Valid() && progressiveCtx.Valid()
      ensures clearCtx.View() == old(clearCtx.View())
      ensures var screen := old(surfaces.View());
              if slot in screen.cache then
                && stats == NotedAll(old(stats), StampOutcomes(screen.surfaces[id], points, screen.cache[slot].width, screen.cache[slot].height))
                && surfaces.View() == Recalled(screen, slot, id, points) && sawContent
              else stats == Dropped(old(stats)) && surfaces.View() == screen && sawContent == old(sawContent)
    {
      hide *;
      RecallOn(slot, id, points);
    }

    method RecallOn(slot: U16, id: U16, points: seq<Point>)
      requires surfaces.Valid() && id in surfaces.surfaces
      modifies this`stats, this`sawContent, surfaces.Arrays()
      ensures surfaces.Valid()
      ensures var screen := old(surfaces.View());
              if slot in screen.cache then
                && stats == NotedAll(old(stats), StampOutcomes(screen.surfaces[id], points, screen.cache[slot].width, screen.cache[slot].height))
                && surfaces.View() == Recalled(screen, slot, id, points) && sawContent
              else stats == Dropped(old(stats)) && surfaces.View() == screen && sawContent == old(sawContent)
    {
      hide SurfaceManager.View, SurfaceManager.Valid, Recalled, NotedAll, StampOutcomes, Dropped;
      Held(id);
      CachedSize(surfaces, slot);
      var r := surfaces.CacheToSurface(slot, id, points);
      if r.Stamps? {
        CheckAll(r.outcomes);
        sawContent := true;
      } else {
        Drop();
      }
      assert surfaces.Arrays() == old(surfaces.Arrays());
    }

    // ---------- Dispatch ----------

    method Count(pdu: Pdu)
      requires Valid()
      modifies this`stats
      ensures Valid() && View() == Counted(old(View()), pdu)
    {
      hide SurfaceManager.View, ClearDecoder.ClearCodecContext.View, ClearDecoder.ClearCodecContext.Caches;
      hide TB.AllValid, C.State.Valid, SurfaceManager.Valid, ClearDecoder.ClearCodecContext.Valid, ProgressiveDecoder.ProgressiveContext.Valid;
      CountStats(pdu);
      assert surfaces.Arrays() == old(surfaces.Arrays());
    }

    method CountStats(pdu: Pdu)
      modifies this`stats
      ensures stats == CountedStats(old(stats), pdu)
    {
      match pdu {
        case WireToSurface1(_, _, _, _, _) => stats := stats.(wire1 := stats.wire1 + 1);
        case WireToSurface2(_, _, _) => stats := stats.(wire2 := stats.wire2 + 1);
        case SolidFill(_, _, _) => stats := stats.(fills := stats.fills + 1);
        case SurfaceToSurface(_, _, _, _) => stats := stats.(copies := stats.copies + 1);
        case SurfaceToCache(_, _, _) => stats := stats.(stores := stats.stores + 1);
        case CacheToSurface(_, _, _) => stats := stats.(recalls := stats.recalls + 1);
        case EvictCacheEntry(_) => stats := stats.(evictions := stats.evictions + 1);
        case DeleteEncodingContext(_, _) => stats := stats.(contextDeletes := stats.contextDeletes + 1);
        case Other(_) => stats := stats.(unhandled := stats.unhandled + 1);
        case _ =>
      }
    }

    method ApplyDraw(pdu: Pdu)
      requires codecs == ClientCodecs()
      requires Valid()
      modifies this, surfaces`cache, surfaces.Arrays(), progressiveCtx, clearCtx
      modifies clearCtx.glyphCache, clearCtx.vbarStorage, clearCtx.shortVbarStorage
      ensures Valid() && surfaces.Arrays() == old(surfaces.Arrays())
      ensures View() == Effected(old(View()), EffectOf(old(View()), pdu))
    {
      hide Draw1, Draw2, DrawFill, DrawCopy, Store, Recall, Evicted, Effected, GfxState.View, GfxState.Valid, ClientCodecs;
      hide SurfaceManager.Valid, SurfaceManager.View;
      match pdu
      case WireToSurface1(id, codec, _, dest, bitmap) => WireToSurface1(id, codec, dest, bitmap);
      case WireToSurface2(id, codec, bitmap) => WireToSurface2(id, codec, bitmap);
      case SolidFill(id, colour, rects) => SolidFill(id, colour, rects);
      case SurfaceToSurface(from, rect, to, points) => SurfaceToSurface(from, rect, to, points);
      case SurfaceToCache(id, slot, rect) => SurfaceToCache(id, slot, rect);
      case CacheToSurface(slot, id, points) => CacheToSurface(slot, id, points);
      case EvictCacheEntry(slot) => EvictCacheEntry(slot);
      case _ => NothingHappens(View());
    }

    method Apply(pdu: Pdu) returns (action: seq<Action>)
      requires codecs == ClientCodecs()
      requires Valid()
      modifies this, surfaces, surfaces.Arrays(), progressiveCtx, clearCtx
      modifies clearCtx.glyphCache, clearCtx.vbarStorage, clearCtx.shortVbarStorage
      ensures Valid() && fresh(surfaces.Arrays() - old(surfaces.Arrays()))
      ensures View() == GfxMachine.Apply(old(View()), pdu) && action == ActionOf(old(View()), pdu)
    {
      hide EffectOf, Create, Delete, Reset, MapOutput, EndedFrame, Counted, Effected, GfxState.View;
      hide GfxState.Valid, ClientCodecs, R.Without, SurfaceManager.Valid, SurfaceManager.View;
      action := [];
      Count(pdu);
      match pdu
      case CapsConfirm =>
      case ResetGraphics(width, height) => ResetGraphics(width, height);
      case CreateSurface(id, w, h, _) => CreateSurface(id, w, h);
      case DeleteSurface(id) => DeleteSurface(id);
      case MapSurfaceToOutput(id, x, y) => MapSurfaceToOutput(id, x, y);
      case StartFrame(frame) => StartFrame(frame);
      case EndFrame(frame) =>
        var ack := EndFrame(frame);
        action := [ack];
      case _ => ApplyDraw(pdu);
    }

    method CountFailure()
      requires Valid()
      modifies this`stats
      ensures Valid() && View() == GfxRuns.Shifted(old(View()), 1)
    {
      hide SurfaceManager.View, ClearDecoder.ClearCodecContext.View, ClearDecoder.ClearCodecContext.Caches;
      hide TB.AllValid, C.State.Valid, SurfaceManager.Valid, ClearDecoder.ClearCodecContext.Valid, ProgressiveDecoder.ProgressiveContext.Valid;
      stats := stats.(parseFailures := stats.parseFailures + 1, droppedUpdates := stats.droppedUpdates + 1);
      assert surfaces.Arrays() == old(surfaces.Arrays());
    }

    /** One decompressed message: all of it is split before any of it is applied. */
    method ApplyMessage(message: seq<Byte>) returns (r: Option<seq<Action>>)
      requires codecs == ClientCodecs()
      requires Valid()
      modifies this, surfaces, surfaces.Arrays(), progressiveCtx, clearCtx
      modifies clearCtx.glyphCache, clearCtx.vbarStorage, clearCtx.shortVbarStorage
      ensures Valid() && fresh(surfaces.Arrays() - old(surfaces.Arrays()))
      ensures (View(), r) == GfxRuns.ApplyMessage(old(View()), message)
    {
      hide GfxMachine.Apply, ActionOf, GfxState.View, GfxState.Valid, Split, GfxRuns.ApplyMessage, GfxRuns.ApplyEntries, GfxRuns.EntryActions;
      hide ClientCodecs, SurfaceManager.Valid, SurfaceManager.View;
      var entries := GfxParser.SplitPdus(message);
      SplitIs(View(), message, entries);
      if entries.None? {
        return None;
      }
      var actions := ApplyEntries(entries.value);
      return Some(actions);
    }

    method ApplyEntries(es: seq<Entry>) returns (actions: seq<Action>)
      requires codecs == ClientCodecs()
      requires Valid()
      modifies this, surfaces, surfaces.Arrays(), progressiveCtx, clearCtx
      modifies clearCtx.glyphCache, clearCtx.vbarStorage, clearCtx.shortVbarStorage
      ensures Valid() && fresh(surfaces.Arrays() - old(surfaces.Arrays()))
      ensures View() == GfxRuns.ApplyEntries(old(View()), es) && actions == GfxRuns.EntryActions(old(View()), es)
    {
      hide GfxMachine.Apply, ActionOf, GfxState.View, GfxState.Valid, Split, GfxRuns.ApplyMessage, GfxRuns.ApplyEntries, GfxRuns.EntryActions;
      hide ClientCodecs, SurfaceManager.Valid, SurfaceManager.View;
      actions := [];
      EntriesBegin(View(), es);
      for i := 0 to |es|
        invariant Valid() && fresh(surfaces.Arrays() - old(surfaces.Arrays()))
        invariant GfxRuns.ApplyEntries(old(View()), es) == GfxRuns.ApplyEntries(View(), es[i..])
        invariant GfxRuns.EntryActions(old(View()), es) == actions + GfxRuns.EntryActions(View(), es[i..])
      {
        EntriesStep(View(), es, i, actions);
        if es[i].Parsed? {
          var action := Apply(es[i].pdu);
          actions := actions + action;
        } else {
          CountFailure();
        }
      }
      EntriesEnd(View(), es, actions);
    }
  }

  lemma SplitIs(s: State, message: seq<Byte>, entries: Option<seq<Entry>>)
    requires entries == Split(message, 0)
    ensures GfxRuns.ApplyMessage(s, message) ==
            match entries
            case None => (s, None)
            case Some(es) => (GfxRuns.ApplyEntries(s, es), Some(GfxRuns.EntryActions(s, es)))
  {
    hide Split, GfxRuns.ApplyEntries, GfxRuns.EntryActions;
  }

  lemma EntriesBegin(s: State, es: seq<Entry>)
    ensures es[0..] == es && GfxRuns.EntryActions(s, es) == [] + GfxRuns.EntryActions(s, es)
  {
  }

  lemma EntriesStep(s: State, es: seq<Entry>, i: nat, actions: seq<Action>)
    requires i < |es|
    ensures es[i].Parsed? ==>
              var s' := GfxMachine.Apply(s, es[i].pdu);
              && GfxRuns.ApplyEntries(s, es[i..]) == GfxRuns.ApplyEntries(s', es[i + 1..])
              && actions + GfxRuns.EntryActions(s, es[i..]) == actions + ActionOf(s, es[i].pdu) + GfxRuns.EntryActions(s', es[i + 1..])
    ensures es[i].Failed? ==>
              var s' := GfxRuns.Shifted(s, 1);
              && GfxRuns.ApplyEntries(s, es[i..]) == GfxRuns.ApplyEntries(s', es[i + 1..])
              && GfxRuns.EntryActions(s, es[i..]) == GfxRuns.EntryActions(s', es[i + 1..])
  {
    hide GfxMachine.Apply, ActionOf;
    assert es[i..][1..] == es[i + 1..];
  }

  lemma EntriesEnd(s: State, es: seq<Entry>, actions: seq<Action>)
    ensures GfxRuns.ApplyEntries(s, es[|es|..]) == s && actions + GfxRuns.EntryActions(s, es[|es|..]) == actions
  {
  }

  // ---------- Frame facts ----------

  lemma SameVisible(a: Canvas, b: Canvas, r: Rect)
    requires a.width == b.width && a.height == b.height
    ensures Visible(a, r) == Visible(b, r)
  {
  }

  lemma CachedSize(m: SurfaceManager, slot: U16)
    requires m.Valid()
    ensures slot in m.cache ==>
              slot in m.View().cache && m.View().cache[slot].width == m.cache[slot].width && m.View().cache[slot].height == m.cache[slot].height
    ensures slot in m.View().cache ==> slot in m.cache
  {
    hide RowsOf;
  }

  ghost function FillStats(st: Stats, c: Canvas, rects: seq<RectU16>): Stats {
    DroppedMany(NotedAll(st, FillChecks(c, rects)), SwappedRects(rects))
  }

  lemma {:induction false} NotedAfterDrop(st: Stats, os: seq<WriteOutcome>)
    ensures NotedAll(Dropped(st), os) == Dropped(NotedAll(st, os))
    decreases |os|
  {
    if os != [] {
      NotedAfterDrop(Noted(st, os[0]), os[1..]);
    }
  }

  lemma NotedOne(st: Stats, o: WriteOutcome)
    ensures NotedAll(st, [o]) == Noted(st, o)
    ensures forall rest: seq<WriteOutcome> :: NotedAll(st, [o] + rest) == NotedAll(Noted(st, o), rest)
  {
    hide Noted;
    forall rest: seq<WriteOutcome>
      ensures NotedAll(st, [o] + rest) == NotedAll(Noted(st, o), rest)
    {
      assert ([o] + rest)[1..] == rest;
    }
  }

  lemma NotedNone(st: Stats)
    ensures NotedAll(st, []) == st
  {
  }

  lemma ClientClear(data: seq<Byte>, s: C.State, w: nat, h: nat)
    ensures ClientCodecs().clear(data, s, w, h) == ClearPicture(data, s, w, h)
  {
    hide ClearPicture, ProgressiveUpdate;
  }

  lemma ClientProgressive(base: TB.Baseline, id: U16, data: seq<Byte>)
    ensures ClientCodecs().progressive(base, id, data) == ProgressiveUpdate(base, id, data)
  {
    hide ClearPicture, ProgressiveUpdate;
  }

  lemma StoreIs(s: State, id: U16, slot: U16, rect: RectU16)
    ensures rect.Size().None? ==> Store(s, id, slot, rect) == Loss(s)
    ensures rect.Size().Some? ==>
              var r := Rect(rect.left, rect.top, rect.Size().value.0, rect.Size().value.1);
              Effected(s, Store(s, id, slot, rect)) ==
              if id in s.screen.surfaces then s.(screen := Cached(s.screen, id, slot, r), stats := Noted(s.stats, Whole(s.screen.surfaces[id], r)))
              else s.(stats := Dropped(s.stats))
  {
    hide Cached, Whole, Noted;
    NotedNone(s.stats);
    if rect.Size().Some? && id in s.screen.surfaces {
      NotedOne(s.stats, Whole(s.screen.surfaces[id], Rect(rect.left, rect.top, rect.Size().value.0, rect.Size().value.1)));
    }
  }

  lemma FillEffect(s: State, id: U16, colour: seq<Byte>, rects: seq<RectU16>)
    ensures id !in s.screen.surfaces ==> DrawFill(s, id, colour, rects) == Loss(s)
    ensures id in s.screen.surfaces ==>
              Effected(s, DrawFill(s, id, colour, rects)) == GfxState.Filling(s, id, OpaqueColour(colour), rects)
  {
    hide FillAll, FillChecks, SwappedRects, NotedAll;
  }

  lemma RecallEffect(s: State, slot: U16, id: U16, points: seq<Point>)
    ensures id !in s.screen.surfaces ==> Recall(s, slot, id, points) == Loss(s)
    ensures id in s.screen.surfaces && slot !in s.screen.cache ==>
              Effected(s, Recall(s, slot, id, points)) == s.(stats := Dropped(s.stats))
    ensures id in s.screen.surfaces && slot in s.screen.cache ==>
              var cached := s.screen.cache[slot];
              Effected(s, Recall(s, slot, id, points))
              == s.(screen := Recalled(s.screen, slot, id, points), sawContent := true,
                    stats := NotedAll(s.stats, StampOutcomes(s.screen.surfaces[id], points, cached.width, cached.height)))
  {
    hide Recalled, StampOutcomes, Noted;
  }

  lemma SeenProgressive(s: State, id: U16, bitmap: seq<Byte>, x: U16, y: U16)
    requires id in s.screen.surfaces
    ensures DrawProgressive(s, id, bitmap, x, y).(seen := true) == DrawProgressive(s, id, bitmap, x, y)
  {
  }

  lemma RawIs(s: State, id: U16, bitmap: seq<Byte>, x: U16, y: U16, w: U16, h: U16)
    requires id in s.screen.surfaces
    ensures DrawRaw(s, id, bitmap, x, y, w, h) == if |bitmap| < w * h * 4 then Loss(s) else RawDrawn(s, id, bitmap, x, y, w, h)
  {
    hide RawDrawn;
  }

  lemma RawPaint(c: Image, x: nat, y: nat, bitmap: seq<Byte>, w: nat, h: nat)
    ensures Wide(Source(PixelsOf(bitmap), w, h), w)
    ensures Painted(c, Paint(x, y, RawImage(bitmap, w, h))) == Blitted(c, x, y, w, Source(PixelsOf(bitmap), w, h))
  {
    hide Blitted, PixelsOf;
    var im: Image := RawImage(bitmap, w, h);
  }

  lemma NothingHappens(s: State)
    ensures Effected(s, Nothing(s)) == s
  {
  }

  /** One rectangle of a fill. */
  lemma FillStep(now: Image, c: Image, st: Stats, rects: seq<RectU16>, p: Pixel)
    requires rects != []
    ensures match rects[0].Size()
            case None =>
              && FillAll(now, rects, p) == FillAll(now, rects[1..], p)
              && FillStats(st, c, rects) == FillStats(Dropped(st), c, rects[1..])
            case Some((w, h)) =>
              var r := Rect(rects[0].left, rects[0].top, w, h);
              && FillAll(now, rects, p) == FillAll(Filled(now, r, p), rects[1..], p)
              && FillStats(st, c, rects) == FillStats(Noted(st, Whole(c, r)), c, rects[1..])
  {
    hide Filled, Noted, Whole;
    var rest := FillChecks(c, rects[1..]);
    NotedAfterDrop(st, rest);
    match rects[0].Size()
    case None => assert FillChecks(c, rects) == rest;
    case Some((w, h)) => NotedOne(st, Whole(c, Rect(rects[0].left, rects[0].top, w, h)));
  }

  lemma FillEnd(now: Image, c: Image, st: Stats, rects: seq<RectU16>, p: Pixel)
    requires rects == []
    ensures FillAll(now, rects, p) == now && FillStats(st, c, rects) == st
  {
  }
}
