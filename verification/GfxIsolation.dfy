/** Independence of surfaces from their past, and cache snapshots, over runs of graphics PDUs. */
module GfxIsolation {
  import opened Machine
  import opened Canvas
  import opened Paints
  import opened Surfaces
  import opened Screens
  import opened Gfx
  import opened GfxMachine
  import opened GfxRuns
  import SurfaceManagers
  import TB = TileBlocks
  import R = Regions
  import RP = RegionPaints

  // ---------- Tile states of one surface ----------

  /** Both states have the surface or neither has it, with the same tile states and the same codecs. */
  ghost predicate SameTiles(a: State, b: State, id: U16) {
    a.codecs == b.codecs && (id in a.screen.surfaces <==> id in b.screen.surfaces) && R.Only(a.base, id) == R.Only(b.base, id)
  }

  lemma WithoutForgets(a: TB.Baseline, b: TB.Baseline, gone: U16, id: U16)
    requires id == gone || R.Only(a, id) == R.Only(b, id)
    ensures R.Only(R.Without(a, gone), id) == R.Only(R.Without(b, gone), id)
  {
    WithoutIs(a, gone, id);
    WithoutIs(b, gone, id);
  }

  lemma WithoutIs(a: TB.Baseline, gone: U16, id: U16)
    ensures R.Only(R.Without(a, gone), id) == if id == gone then map[] else R.Only(a, id)
  {
  }

  /** The tile states of `id` once a bitstream for `on` has been decoded. */
  lemma DecodedTiles(s: State, id: U16, on: U16, bitmap: seq<Byte>)
    requires Inv(s)
    ensures R.Only(s.codecs.progressive(s.base, on, bitmap).base, id)
         == if on == id then s.codecs.progressive(R.Only(s.base, id), id, bitmap).base else R.Only(s.base, id)
  {
    hide R.Only, TB.AllValid, Distinct;
    assert LocalAt(s.codecs, s.base, on, bitmap);
  }

  /** Which bitstream of which surface, if any, a PDU decodes. */
  ghost function Decodes(s: State, pdu: Pdu): Option<(U16, seq<Byte>)> {
    match pdu
    case WireToSurface1(id, codec, _, dest, bitmap) =>
      if dest.Size().Some? && id in s.screen.surfaces && codec == CODEC_CAPROGRESSIVE then Some((id, bitmap)) else None
    case WireToSurface2(id, codec, bitmap) =>
      if id in s.screen.surfaces && codec == CODEC_CAPROGRESSIVE then Some((id, bitmap)) else None
    case _ => None
  }

  lemma EffectOnTiles(s: State, pdu: Pdu)
    ensures EffectOf(s, pdu).screen.surfaces.Keys == s.screen.surfaces.Keys
    ensures EffectOf(s, pdu).base ==
            match Decodes(s, pdu)
            case None => s.base
            case Some((id, bitmap)) => s.codecs.progressive(s.base, id, bitmap).base
  {
    hide EffectOf;
    EffectKeeps(s, pdu);
    match pdu
    case WireToSurface1(id, codec, _, dest, bitmap) => Draw1OnTiles(s, pdu);
    case WireToSurface2(id, codec, bitmap) => Draw2OnTiles(s, pdu);
    case _ =>
  }

  lemma Draw1OnTiles(s: State, pdu: Pdu)
    requires pdu.WireToSurface1?
    ensures EffectOf(s, pdu).base ==
            match Decodes(s, pdu)
            case None => s.base
            case Some((id, bitmap)) => s.codecs.progressive(s.base, id, bitmap).base
  {
    hide Whole, RawImage, Painted, PaintAll, AllAt, BlitOutcome, RP.Fits;
  }

  lemma Draw2OnTiles(s: State, pdu: Pdu)
    requires pdu.WireToSurface2?
    ensures EffectOf(s, pdu).base ==
            match Decodes(s, pdu)
            case None => s.base
            case Some((id, bitmap)) => s.codecs.progressive(s.base, id, bitmap).base
  {
    hide PaintAll, AllAt, RP.Fits;
  }

  lemma DrawSameTiles(a: State, b: State, id: U16, pdu: Pdu)
    requires Inv(a) && Inv(b) && SameTiles(a, b, id)
    ensures R.Only(EffectOf(a, pdu).base, id) == R.Only(EffectOf(b, pdu).base, id)
  {
    hide EffectOf, R.Only, Inv;
    EffectOnTiles(a, pdu);
    EffectOnTiles(b, pdu);
    if Decodes(a, pdu).Some? {
      DecodedTiles(a, id, Decodes(a, pdu).value.0, Decodes(a, pdu).value.1);
    }
    if Decodes(b, pdu).Some? {
      DecodedTiles(b, id, Decodes(b, pdu).value.0, Decodes(b, pdu).value.1);
    }
  }

  /** What a PDU that does not draw leaves of the tile states. */
  ghost function KeptTiles(s: State, pdu: Pdu): TB.Baseline {
    match pdu
    case ResetGraphics(_, _) => map[]
    case CreateSurface(id, _, _, _) => R.Without(s.base, id)
    case DeleteSurface(id) => R.Without(s.base, id)
    case _ => s.base
  }

  predicate Draws(pdu: Pdu) {
    && !pdu.CapsConfirm? && !pdu.ResetGraphics? && !pdu.CreateSurface? && !pdu.DeleteSurface?
    && !pdu.MapSurfaceToOutput? && !pdu.StartFrame? && !pdu.EndFrame?
  }

  lemma UndrawnTiles(s: State, pdu: Pdu, id: U16)
    requires !Draws(pdu)
    ensures Apply(s, pdu).base == KeptTiles(s, pdu) && Apply(s, pdu).codecs == s.codecs
    ensures id in Apply(s, pdu).screen.surfaces <==>
            (pdu.CreateSurface? && pdu.surface == id) || (id in s.screen.surfaces && !(pdu.DeleteSurface? && pdu.surface == id))
  {
    hide R.Without, Unmapped, Blank;
  }

  lemma UndrawnSameTiles(a: State, b: State, id: U16, pdu: Pdu)
    requires SameTiles(a, b, id) && !Draws(pdu)
    ensures SameTiles(Apply(a, pdu), Apply(b, pdu), id)
  {
    hide Apply, R.Only, R.Without;
    UndrawnTiles(a, pdu, id);
    UndrawnTiles(b, pdu, id);
    match pdu
    case CreateSurface(on, _, _, _) => WithoutForgets(a.base, b.base, on, id);
    case DeleteSurface(on) => WithoutForgets(a.base, b.base, on, id);
    case _ =>
  }

  lemma DrawnTiles(s: State, pdu: Pdu)
    requires Draws(pdu)
    ensures Apply(s, pdu).base == EffectOf(s, pdu).base && Apply(s, pdu).codecs == s.codecs
    ensures Apply(s, pdu).screen.surfaces == EffectOf(s, pdu).screen.surfaces
  {
    hide EffectOf, NotedAll, DroppedMany;
    EffectIgnoresStats(s, CountedStats(s.stats, pdu), pdu);
  }

  lemma StepSameTiles(a: State, b: State, id: U16, pdu: Pdu)
    requires Inv(a) && Inv(b) && SameTiles(a, b, id)
    ensures SameTiles(Apply(a, pdu), Apply(b, pdu), id)
  {
    hide Apply, EffectOf, Inv, R.Only, Draws;
    if Draws(pdu) {
      DrawnTiles(a, pdu);
      DrawnTiles(b, pdu);
      EffectSameTiles(a, b, id, pdu);
    } else {
      UndrawnSameTiles(a, b, id, pdu);
    }
  }

  lemma EffectSameTiles(a: State, b: State, id: U16, pdu: Pdu)
    requires Inv(a) && Inv(b) && SameTiles(a, b, id)
    ensures R.Only(EffectOf(a, pdu).base, id) == R.Only(EffectOf(b, pdu).base, id)
    ensures id in EffectOf(a, pdu).screen.surfaces <==> id in EffectOf(b, pdu).screen.surfaces
  {
    hide EffectOf, Inv, R.Only;
    DrawSameTiles(a, b, id, pdu);
    EffectKeeps(a, pdu);
    EffectKeeps(b, pdu);
    var was, now: set<U16> := a.screen.surfaces.Keys, EffectOf(a, pdu).screen.surfaces.Keys;
    var was', now': set<U16> := b.screen.surfaces.Keys, EffectOf(b, pdu).screen.surfaces.Keys;
    assert id in now <==> id in was;
    assert id in now' <==> id in was';
  }

  /** Two states that agree on one surface agree on it after any run. */
  lemma {:induction false} RunSameTiles(a: State, b: State, id: U16, pdus: seq<Pdu>)
    requires Inv(a) && Inv(b) && SameTiles(a, b, id)
    ensures SameTiles(ApplyAll(a, pdus), ApplyAll(b, pdus), id)
    decreases |pdus|
  {
    hide Apply, SameTiles, Inv;
    if pdus != [] {
      ApplyKeepsInv(a, pdus[0]);
      ApplyKeepsInv(b, pdus[0]);
      StepSameTiles(a, b, id, pdus[0]);
      RunSameTiles(Apply(a, pdus[0]), Apply(b, pdus[0]), id, pdus[1..]);
    }
  }

  /** Whatever two connections did before, from the creation of a surface on the same PDUs leave it the same tile states. */
  lemma CreationForgetsThePast(a: State, b: State, id: U16, w: U16, h: U16, format: Byte, pdus: seq<Pdu>)
    requires Inv(a) && Inv(b) && a.codecs == b.codecs
    ensures var create := CreateSurface(id, w, h, format);
            R.Only(ApplyAll(Apply(a, create), pdus).base, id) == R.Only(ApplyAll(Apply(b, create), pdus).base, id)
  {
    hide Inv, ApplyAll, R.Only, R.Without;
    var create := CreateSurface(id, w, h, format);
    ApplyKeepsInv(a, create);
    ApplyKeepsInv(b, create);
    WithoutForgets(a.base, b.base, id, id);
    RunSameTiles(Apply(a, create), Apply(b, create), id, pdus);
  }

  // ---------- Cache snapshots ----------

  predicate Touches(pdu: Pdu, slot: U16) {
    (pdu.SurfaceToCache? || pdu.EvictCacheEntry?) && pdu.slot == slot
  }

  lemma EffectOnCache(s: State, pdu: Pdu)
    ensures !pdu.SurfaceToCache? && !pdu.EvictCacheEntry? ==> EffectOf(s, pdu).screen.cache == s.screen.cache
  {
    hide Whole, FillChecks, FillAll, Stamped, Extracted, SurfaceManagers.StampOutcomes, RawImage, Painted, PaintAll, AllAt,
         BlitOutcome, RP.Fits;
  }

  lemma StepKeepsSlot(s: State, pdu: Pdu, slot: U16)
    requires slot in s.screen.cache && !Touches(pdu, slot)
    ensures slot in Apply(s, pdu).screen.cache && Apply(s, pdu).screen.cache[slot] == s.screen.cache[slot]
  {
    EffectOnCache(Counted(s, pdu), pdu);
    hide Draw1, Draw2, DrawFill, DrawCopy, Recall, NotedAll, Unmapped, Blank, Extracted, Whole;
  }

  lemma {:induction false} RunKeepsSlot(s: State, pdus: seq<Pdu>, slot: U16)
    requires slot in s.screen.cache && forall pdu :: pdu in pdus ==> !Touches(pdu, slot)
    ensures slot in ApplyAll(s, pdus).screen.cache && ApplyAll(s, pdus).screen.cache[slot] == s.screen.cache[slot]
    decreases |pdus|
  {
    hide Apply, Touches;
    if pdus != [] {
      StepKeepsSlot(s, pdus[0], slot);
      RunKeepsSlot(Apply(s, pdus[0]), pdus[1..], slot);
    }
  }

  /**
   A cache-to-surface paints the pixels its slot's source had when the slot was last stored,
   whatever has been drawn, resized or deleted since.
   */
  lemma RecallPaintsTheSnapshot(s: State, from: U16, slot: U16, rect: RectU16, pdus: seq<Pdu>, to: U16, points: seq<Point>, x: nat, y: nat)
    requires from in s.screen.surfaces && rect.Size().Some?
    requires forall pdu :: pdu in pdus ==> !Touches(pdu, slot)
    requires var now := ApplyAll(Apply(s, SurfaceToCache(from, slot, rect)), pdus);
             to in now.screen.surfaces && x < now.screen.surfaces[to].width && y < now.screen.surfaces[to].height
    ensures var now := ApplyAll(Apply(s, SurfaceToCache(from, slot, rect)), pdus);
            var (w, h) := rect.Size().value;
            var after := Apply(now, CacheToSurface(slot, to, points)).screen.surfaces;
            && to in after && after[to].height == now.screen.surfaces[to].height && after[to].width == now.screen.surfaces[to].width
            && after[to].rows[y][x] ==
               match LastCover(points, w, h, x, y)
               case Some(i) => PixelOr(s.screen.surfaces[from], rect.left + (x - points[i].x), rect.top + (y - points[i].y))
               case None => now.screen.surfaces[to].rows[y][x]
  {
    hide Extracted, Stamped, PixelOr, LastCover, NotedAll, Visible, SurfaceManagers.StampOutcomes, ApplyAll, Touches;
    var (w, h) := rect.Size().value;
    var stored := Apply(s, SurfaceToCache(from, slot, rect));
    RunKeepsSlot(stored, pdus, slot);
    var now := ApplyAll(stored, pdus);
    RecallShows(s.screen, from, Rect(rect.left, rect.top, w, h), slot, now.screen, to, points, x, y);
  }
}
