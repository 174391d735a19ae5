/** `progressive.rs`: tile blocks, regions and the persistent tile states, proved against modules TileBlocks and Regions. */
module ProgressiveDecoder {
  import opened Machine
  import opened Grid
  import opened Bytes
  import opened Pixels
  import opened Canvas
  import opened Quants
  import opened Planes
  import opened TileBlocks
  import opened Regions
  import opened Surfaces
  import PlaneDecoder

  // ---------- Parsing ----------

  /** The fixed fields in front of a tile's streams. */
  datatype TileFields = TileFields(index: Three<Byte>, x: U16, y: U16, flags: Byte, quality: Byte, sizes: Three<U16>, tail: U16)

  function FieldsOf(body: seq<Byte>, first: bool): TileFields
    requires |body| >= TileHeader(first)
  {
    var h := TileHeader(first);
    TileFields(Three(body[0], body[1], body[2]), Field16(body, 3), Field16(body, 5), body[7],
               if first then body[8] else FULL_QUALITY,
               Three(Field16(body, h - 8), Field16(body, h - 6), Field16(body, h - 4)), Field16(body, h - 2))
  }

  method ReadThree(r: ByteReader) returns (t: Option<Three<Byte>>)
    requires r.Valid()
    modifies r
    ensures r.Valid()
    ensures t.None? ==> |r.data| < old(r.pos) + 3
    ensures t.Some? ==> r.pos == old(r.pos) + 3 && t.value == Three(r.data[r.pos - 3], r.data[r.pos - 2], r.data[r.pos - 1])
  {
    var a := r.U8();
    if a.None? {
      return None;
    }
    var b := r.U8();
    if b.None? {
      return None;
    }
    var c := r.U8();
    if c.None? {
      return None;
    }
    return Some(Three(a.value, b.value, c.value));
  }

  method ReadPair(r: ByteReader) returns (t: Option<(U16, U16)>)
    requires r.Valid()
    modifies r
    ensures r.Valid()
    ensures t.None? ==> |r.data| < old(r.pos) + 4
    ensures t.Some? ==> r.pos == old(r.pos) + 4 && t.value == (Field16(r.data, r.pos - 4), Field16(r.data, r.pos - 2))
  {
    hide Le16;
    var a := r.U16();
    if a.None? {
      return None;
    }
    var b := r.U16();
    if b.None? {
      return None;
    }
    return Some((a.value, b.value));
  }

  method ReadTileFields(r: ByteReader, first: bool) returns (f: Option<TileFields>)
    requires r.Valid() && r.pos == 0
    modifies r
    ensures r.Valid()
    ensures f.None? <==> |r.data| < TileHeader(first)
    ensures f.Some? ==> f.value == FieldsOf(r.data, first) && r.pos == TileHeader(first)
  {
    hide Field16, Le16;
    var index := ReadThree(r);
    if index.None? {
      return None;
    }
    var at := ReadPair(r);
    if at.None? {
      return None;
    }
    var flags := r.U8();
    if flags.None? {
      return None;
    }
    var quality: Byte := FULL_QUALITY;
    if first {
      var q := r.U8();
      if q.None? {
        return None;
      }
      quality := q.value;
    }
    var front := ReadPair(r);
    if front.None? {
      return None;
    }
    var back := ReadPair(r);
    if back.None? {
      return None;
    }
    return Some(TileFields(index.value, at.value.0, at.value.1, flags.value, quality,
                           Three(front.value.0, front.value.1, back.value.0), back.value.1));
  }

  method ReadTileBlock(body: seq<Byte>, first: bool) returns (b: Option<TileBlock>)
    ensures b == ReadTile(body, first)
  {
    hide Field16, Le16;
    var r := new ByteReader(body);
    var f := ReadTileFields(r, first);
    if f.None? {
      return None;
    }
    var y := r.Bytes(f.value.sizes.y);
    if y.None? {
      return None;
    }
    var cb := r.Bytes(f.value.sizes.cb);
    if cb.None? {
      return None;
    }
    var cr := r.Bytes(f.value.sizes.cr);
    if cr.None? {
      return None;
    }
    var tail := r.Bytes(f.value.tail);
    if tail.None? {
      return None;
    }
    return Some(TileBlock(f.value.index, f.value.x, f.value.y, f.value.flags % 2 == 1, f.value.quality,
                          Three(y.value, cb.value, cr.value)));
  }

  method ReadUpgradeBlock(body: seq<Byte>) returns (u: Option<UpgradeBlock>)
    ensures u == ReadUpgrade(body)
  {
    hide Field16, Le16;
    var r := new ByteReader(body);
    var index := ReadThree(r);
    if index.None? {
      return None;
    }
    var at := ReadPair(r);
    if at.None? {
      return None;
    }
    var quality := r.U8();
    if quality.None? {
      return None;
    }
    var y := ReadPair(r);
    if y.None? {
      return None;
    }
    var cb := ReadPair(r);
    if cb.None? {
      return None;
    }
    var cr := ReadPair(r);
    if cr.None? {
      return None;
    }
    var declared: nat := y.value.0 as nat + y.value.1 + cb.value.0 + cb.value.1 + cr.value.0 + cr.value.1;
    if declared != |body| - r.pos {
      return None;
    }
    var streams := CutStreams(r, y.value, cb.value, cr.value);
    return Some(UpgradeBlock(index.value, at.value.0, at.value.1, quality.value, streams));
  }

  /** Cuts the six streams out of the rest of a block that holds exactly them. */
  method CutStreams(r: ByteReader, y: (U16, U16), cb: (U16, U16), cr: (U16, U16)) returns (s: Three<Streams>)
    requires r.Valid() && r.pos + y.0 + y.1 + cb.0 + cb.1 + cr.0 + cr.1 == |r.data|
    modifies r
    ensures var e1 := old(r.pos) + y.0;
            var e2 := e1 + y.1;
            var e3 := e2 + cb.0;
            var e4 := e3 + cb.1;
            var e5 := e4 + cr.0;
            s == Three(Streams(r.data[old(r.pos)..e1], r.data[e1..e2]), Streams(r.data[e2..e3], r.data[e3..e4]),
                       Streams(r.data[e4..e5], r.data[e5..|r.data|]))
  {
    var a := r.Bytes(y.0);
    var b := r.Bytes(y.1);
    var c := r.Bytes(cb.0);
    var d := r.Bytes(cb.1);
    var e := r.Bytes(cr.0);
    var f := r.Bytes(cr.1);
    s := Three(Streams(a.value, b.value), Streams(c.value, d.value), Streams(e.value, f.value));
  }

  lemma BitsFromNibbles(t: Tables, index: Three<Byte>, quality: Byte)
    requires TablesValid(t) && BitPositions(t, index, quality).Some?
    ensures var b := BitPositions(t, index, quality).value;
            forall i :: 0 <= i < 10 ==> b.y[i] <= 30 && b.cb[i] <= 30 && b.cr[i] <= 30
  {
    hide Add;
    assert Nibbles(t.quants[index.y]) && Nibbles(t.quants[index.cb]) && Nibbles(t.quants[index.cr]);
    if quality != FULL_QUALITY {
      assert Nibbles(t.progs[quality].y) && Nibbles(t.progs[quality].cb) && Nibbles(t.progs[quality].cr);
    }
  }

  // ---------- Tiles ----------

  /** A picture waiting to be composited, as a flat buffer. */
  datatype Waiting = Waiting(x: U16, y: U16, pixels: seq<Pixel>)

  ghost function DecodedOf(w: Waiting): Decoded {
    Decoded(w.x, w.y, RowsOf(w.pixels, TILE, TILE))
  }

  ghost function AllDecoded(ws: seq<Waiting>): (r: seq<Decoded>)
    ensures |r| == |ws|
  {
    seq(|ws|, i requires 0 <= i < |ws| => DecodedOf(ws[i]))
  }

  ghost predicate Whole(ws: seq<Waiting>) {
    forall i :: 0 <= i < |ws| ==> |ws[i].pixels| == TILE * TILE
  }

  class ProgressiveContext {
    var tileBaseline: Baseline
    var pendingTiles: seq<Waiting>

    ghost predicate Valid()
      reads this
    {
      AllValid(tileBaseline) && Whole(pendingTiles)
    }

    constructor ()
      ensures Valid() && tileBaseline == map[]
    {
      tileBaseline := map[];
      pendingTiles := [];
    }

    method ResetSurface(surface: U16)
      requires Valid()
      modifies this
      ensures Valid() && tileBaseline == Without(old(tileBaseline), surface)
    {
      tileBaseline := Without(tileBaseline, surface);
    }

    method ResetAll()
      modifies this
      ensures Valid() && tileBaseline == map[]
    {
      tileBaseline := map[];
      pendingTiles := [];
    }

    /** Stores a tile state and queues its picture. */
    method Store(key: Key, s: TileState, extrapolate: bool)
      requires Valid() && s.Valid()
      modifies this
      ensures Valid() && tileBaseline == old(tileBaseline)[key := s]
      ensures AllDecoded(pendingTiles) == AllDecoded(old(pendingTiles)) + [Decoded(key.x, key.y, Render(s, extrapolate))]
    {
      hide Render, RowsOf;
      tileBaseline := tileBaseline[key := s];
      var pixels := PlaneDecoder.RenderTile(s, extrapolate);
      ghost var before := pendingTiles;
      pendingTiles := pendingTiles + [Waiting(key.x, key.y, pixels)];
      assert AllDecoded(pendingTiles) == AllDecoded(before) + [DecodedOf(Waiting(key.x, key.y, pixels))];
    }

    ghost predicate Follows(o: Outcome, before: seq<Waiting>, ok: bool)
      reads this
    {
      && tileBaseline == o.base && ok == o.ok
      && AllDecoded(pendingTiles) == AllDecoded(before) + if o.pushed.Some? then [o.pushed.value] else []
    }

    /** `decode_tile`: TILE_SIMPLE and TILE_FIRST, replacing or adding to the stored state. */
    method DecodeTileBlock(surface: U16, body: seq<Byte>, first: bool, t: Tables) returns (ok: bool)
      requires Valid() && TablesValid(t)
      modifies this
      ensures Valid() && Follows(DecodeTile(old(tileBaseline), surface, body, first, t), old(pendingTiles), ok)
    {
      hide ReadTile, FirstPlane, Differed, Render, AllDecoded, TablesValid, BitPositions;
      NothingMore(AllDecoded(pendingTiles));
      var b := ReadTileBlock(body, first);
      if b.None? {
        return false;
      }
      var bits := BitPositions(t, b.value.index, b.value.quality);
      if bits.None? {
        return false;
      }
      BitsFromNibbles(t, b.value.index, b.value.quality);
      var y, cb, cr := Sub1(bits.value.y), Sub1(bits.value.cb), Sub1(bits.value.cr);
      if y.None? || cb.None? || cr.None? {
        return false;
      }
      var s := DecodeState(b.value, bits.value, Three(y.value, cb.value, cr.value), t.extrapolate);
      var key := Key(surface, b.value.x, b.value.y);
      if b.value.difference {
        if key !in tileBaseline {
          return true;
        }
        s := AddState(tileBaseline[key], s);
      }
      Store(key, s, t.extrapolate);
      return true;
    }

    /** `decode_tile_upgrade`: the plan for all three components is settled before the state is touched. */
    method DecodeUpgradeBlock(surface: U16, body: seq<Byte>, t: Tables) returns (ok: bool)
      requires Valid()
      modifies this
      ensures Valid() && Follows(DecodeUpgrade(old(tileBaseline), surface, body, t), old(pendingTiles), ok)
    {
      hide ReadUpgrade, UpgradedPlane, Render, AllDecoded, BitPositions, MayUpgrade;
      NothingMore(AllDecoded(pendingTiles));
      var u := ReadUpgradeBlock(body);
      if u.None? {
        return false;
      }
      var bits := BitPositions(t, u.value.index, u.value.quality);
      if bits.None? {
        return false;
      }
      var key := Key(surface, u.value.x, u.value.y);
      if key !in tileBaseline {
        return true;
      }
      var state := tileBaseline[key];
      if !MayUpgradeAll(state, bits.value) {
        return false;
      }
      var y := PlaneDecoder.UpgradePlane(state.y, u.value.streams.y, bits.value.y, t.extrapolate);
      var cb := PlaneDecoder.UpgradePlane(state.cb, u.value.streams.cb, bits.value.cb, t.extrapolate);
      var cr := PlaneDecoder.UpgradePlane(state.cr, u.value.streams.cr, bits.value.cr, t.extrapolate);
      Store(key, TileState(y, cb, cr), t.extrapolate);
      return true;
    }

    method DecodeAnyBlock(surface: U16, kind: U16, body: seq<Byte>, t: Tables) returns (ok: bool)
      requires Valid() && TablesValid(t)
      modifies this
      ensures Valid() && Follows(DecodeBlock(old(tileBaseline), surface, kind, body, t), old(pendingTiles), ok)
    {
      hide DecodeTile, DecodeUpgrade, AllDecoded;
      NothingMore(AllDecoded(pendingTiles));
      if kind == TILE_SIMPLE {
        ok := DecodeTileBlock(surface, body, false, t);
      } else if kind == TILE_FIRST {
        ok := DecodeTileBlock(surface, body, true, t);
      } else if kind == TILE_UPGRADE {
        ok := DecodeUpgradeBlock(surface, body, t);
      } else {
        ok := false;
      }
    }

    /** The tile stream of a region. */
    method DecodeTileStream(surface: U16, t: Tables, tiles: seq<Byte>) returns (ok: bool)
      requires Valid() && TablesValid(t)
      modifies this
      ensures Valid()
      ensures DecodeTiles(old(tileBaseline), surface, t, tiles, 0) == Run(tileBaseline, AllDecoded(pendingTiles), ok)
    {
      hide DecodeBlock, BlockLength, Field16, AllDecoded, TablesValid, DecodeTiles;
      pendingTiles := [];
      ok := true;
      var pos: nat := 0;
      NoneDecoded();
      RunStarts(DecodeTiles(tileBaseline, surface, t, tiles, 0));
      while pos + BLOCK_HEADER <= |tiles|
        invariant Valid() && pos <= |tiles|
        invariant DecodeTiles(old(tileBaseline), surface, t, tiles, 0)
               == Joined(AllDecoded(pendingTiles), ok, DecodeTiles(tileBaseline, surface, t, tiles, pos))
        decreases |tiles| - pos
      {
        TilesStep(tileBaseline, surface, t, tiles, pos);
        var length := BlockLength(tiles, pos);
        if length.None? {
          NothingMore(AllDecoded(pendingTiles));
          return false;
        }
        ghost var base, before := tileBaseline, pendingTiles;
        var kind, body := Field16(tiles, pos), tiles[pos + BLOCK_HEADER..pos + length.value];
        var done := DecodeAnyBlock(surface, kind, body, t);
        JoinedStep(AllDecoded(before), ok, DecodeBlock(base, surface, kind, body, t),
                   DecodeTiles(tileBaseline, surface, t, tiles, pos + length.value));
        ok := ok && done;
        pos := pos + length.value;
      }
      TilesEnd(tileBaseline, surface, t, tiles, pos);
      NothingMore(AllDecoded(pendingTiles));
    }

    /** Decodes a region and composites what it decoded, clipped to its rectangles; one bad tile does not stop the others. */
    method DecodeRegionBlock(surface: U16, body: seq<Byte>, target: Surface, origin: (nat, nat)) returns (ok: bool)
      requires Valid() && target.Valid()
      modifies this, target.pixels
      ensures Valid()
      ensures DecodeRegion(old(tileBaseline), surface, body, old(target.View()), origin) == Shown(tileBaseline, target.View(), ok)
    {
      hide ReadRegion, DecodeTiles, Composite, Lost, RejectedCount, AllDecoded;
      var region := ParseRegion(body);
      if region.None? {
        return false;
      }
      PendingIsShaped(tileBaseline, surface, region.value.tables, region.value.tiles, 0);
      ok := DecodeTileStream(surface, region.value.tables, region.value.tiles);
      var tiles := pendingTiles;
      pendingTiles := [];
      var rejected, droppedPixels := CompositeRegionRects(tiles, region.value.rects, target, origin);
      ok := ok && droppedPixels == 0 && rejected == 0;
    }

    /** A Progressive bitstream drawn at `origin`; one bad region does not stop the ones behind it, a bad length does. */
    method DecompressAt(surface: U16, data: seq<Byte>, target: Surface, origin: (nat, nat)) returns (ok: bool)
      requires Valid() && target.Valid()
      modifies this, target.pixels
      ensures Valid()
      ensures DecodeStream(old(tileBaseline), surface, data, 0, old(target.View()), origin) == Shown(tileBaseline, target.View(), ok)
    {
      hide DecodeRegion, BlockLength, Field16, DecodeStream;
      ok := true;
      var pos: nat := 0;
      while pos + BLOCK_HEADER <= |data|
        invariant Valid() && pos <= |data|
        invariant var rest := DecodeStream(tileBaseline, surface, data, pos, target.View(), origin);
                  DecodeStream(old(tileBaseline), surface, data, 0, old(target.View()), origin) == rest.(ok := ok && rest.ok)
        decreases |data| - pos
      {
        StreamStep(tileBaseline, surface, data, pos, target.View(), origin);
        var length := BlockLength(data, pos);
        if length.None? {
          return false;
        }
        if Field16(data, pos) == REGION {
          var done := DecodeRegionBlock(surface, data[pos + BLOCK_HEADER..pos + length.value], target, origin);
          ok := ok && done;
        }
        pos := pos + length.value;
      }
      StreamEnd(tileBaseline, surface, data, pos, target.View(), origin);
    }
  }

  lemma NothingMore(s: seq<Decoded>)
    ensures s + [] == s
  {
  }

  lemma NoneDecoded()
    ensures AllDecoded([]) == []
  {
  }

  method DecodeState(b: TileBlock, bits: Three<Quant>, shifts: Three<Quant>, extrapolate: bool) returns (s: TileState)
    requires forall i :: 0 <= i < 10 ==> bits.y[i] <= 30 && bits.cb[i] <= 30 && bits.cr[i] <= 30
    requires Sub1(bits.y) == Some(shifts.y) && Sub1(bits.cb) == Some(shifts.cb) && Sub1(bits.cr) == Some(shifts.cr)
    ensures s == FirstState(b, bits, extrapolate)
  {
    hide FirstPlane, Sub1;
    var y := PlaneDecoder.DecodeComponentCoeffs(b.data.y, bits.y, shifts.y, extrapolate);
    var cb := PlaneDecoder.DecodeComponentCoeffs(b.data.cb, bits.cb, shifts.cb, extrapolate);
    var cr := PlaneDecoder.DecodeComponentCoeffs(b.data.cr, bits.cr, shifts.cr, extrapolate);
    s := TileState(y, cb, cr);
  }

  method AddState(state: TileState, delta: TileState) returns (s: TileState)
    requires state.Valid() && delta.Valid()
    ensures s == DifferedState(state, delta)
  {
    hide Differed;
    var y := PlaneDecoder.AddDelta(state.y, delta.y);
    var cb := PlaneDecoder.AddDelta(state.cb, delta.cb);
    var cr := PlaneDecoder.AddDelta(state.cr, delta.cr);
    s := TileState(y, cb, cr);
  }

  // ---------- Steps of the tile stream ----------

  /** A run whose first pictures are already known. */
  ghost function Joined(before: seq<Decoded>, ok: bool, rest: Run): Run {
    Run(rest.base, before + rest.pending, ok && rest.ok)
  }

  lemma RunStarts(r: Run)
    ensures Joined([], true, r) == r
  {
    assert [] + r.pending == r.pending;
  }

  lemma JoinedStep(before: seq<Decoded>, ok: bool, o: Outcome, rest: Run)
    ensures Joined(before, ok, Prepend(o, rest))
         == Joined(before + (if o.pushed.Some? then [o.pushed.value] else []), ok && o.ok, rest)
  {
    var more := if o.pushed.Some? then [o.pushed.value] else [];
    assert before + (more + rest.pending) == before + more + rest.pending;
  }

  lemma TilesStep(base: Baseline, surface: U16, t: Tables, tiles: seq<Byte>, pos: nat)
    requires AllValid(base) && pos + BLOCK_HEADER <= |tiles|
    ensures BlockLength(tiles, pos).None? ==> DecodeTiles(base, surface, t, tiles, pos) == Run(base, [], false)
    ensures BlockLength(tiles, pos).Some? ==>
              var end := pos + BlockLength(tiles, pos).value;
              var o := DecodeBlock(base, surface, Field16(tiles, pos), tiles[pos + BLOCK_HEADER..end], t);
              AllValid(o.base) && DecodeTiles(base, surface, t, tiles, pos) == Prepend(o, DecodeTiles(o.base, surface, t, tiles, end))
  {
    hide DecodeBlock, BlockLength, Field16, Prepend;
    if BlockLength(tiles, pos).Some? {
      BlockIsAtomic(base, surface, Field16(tiles, pos), tiles[pos + BLOCK_HEADER..pos + BlockLength(tiles, pos).value], t);
    }
  }

  lemma TilesEnd(base: Baseline, surface: U16, t: Tables, tiles: seq<Byte>, pos: nat)
    requires AllValid(base) && pos + BLOCK_HEADER > |tiles|
    ensures DecodeTiles(base, surface, t, tiles, pos) == Run(base, [], true)
  {
  }

  lemma StreamStep(base: Baseline, surface: U16, data: seq<Byte>, pos: nat, c: Canvas, origin: (nat, nat))
    requires AllValid(base) && pos + BLOCK_HEADER <= |data|
    ensures BlockLength(data, pos).None? ==> DecodeStream(base, surface, data, pos, c, origin) == Shown(base, c, false)
    ensures BlockLength(data, pos).Some? ==>
              var end := pos + BlockLength(data, pos).value;
              DecodeStream(base, surface, data, pos, c, origin) ==
              if Field16(data, pos) != REGION then DecodeStream(base, surface, data, end, c, origin)
              else
                var first := DecodeRegion(base, surface, data[pos + BLOCK_HEADER..end], c, origin);
                var rest := DecodeStream(first.base, surface, data, end, first.canvas, origin);
                rest.(ok := first.ok && rest.ok)
  {
    hide DecodeRegion, BlockLength, Field16;
  }

  lemma StreamEnd(base: Baseline, surface: U16, data: seq<Byte>, pos: nat, c: Canvas, origin: (nat, nat))
    requires AllValid(base) && pos + BLOCK_HEADER > |data|
    ensures DecodeStream(base, surface, data, pos, c, origin) == Shown(base, c, true)
  {
  }

  // ---------- Parsing a region ----------

  lemma RectsStep(data: seq<Byte>, p: nat, n: nat)
    requires n > 0
    ensures p + 8 > |data| ==> ReadRects(data, p, n) == None
    ensures p + 8 <= |data| ==>
              var rect := Rect(Field16(data, p), Field16(data, p + 2), Field16(data, p + 4), Field16(data, p + 6));
              ReadRects(data, p, n) ==
              match ReadRects(data, p + 8, n - 1)
              case None => None
              case Some((more, end)) => Some(([rect] + more, end))
  {
  }

  method ParseRects(r: ByteReader, n: nat) returns (rects: Option<seq<Rect>>)
    requires r.Valid()
    modifies r
    ensures r.Valid()
    ensures rects.None? <==> ReadRects(r.data, old(r.pos), n).None?
    ensures rects.Some? ==> ReadRects(r.data, old(r.pos), n) == Some((rects.value, r.pos))
  {
    hide ReadRects, Field16;
    var list: seq<Rect> := [];
    ghost var all := ReadRects(r.data, r.pos, n);
    for i := 0 to n
      invariant r.Valid()
      invariant all.None? <==> ReadRects(r.data, r.pos, n - i).None?
      invariant all.Some? ==>
                  && all.value.0 == list + ReadRects(r.data, r.pos, n - i).value.0
                  && all.value.1 == ReadRects(r.data, r.pos, n - i).value.1
    {
      RectsStep(r.data, r.pos, n - i);
      var at := ReadPair(r);
      if at.None? {
        return None;
      }
      var size := ReadPair(r);
      if size.None? {
        return None;
      }
      list := list + [Rect(at.value.0, at.value.1, size.value.0, size.value.1)];
    }
    RectsEnd(r.data, r.pos);
    assert list + [] == list;
    return Some(list);
  }

  lemma RectsEnd(data: seq<Byte>, p: nat)
    ensures ReadRects(data, p, 0) == Some(([], p))
  {
  }

  method ParseQuant(r: ByteReader) returns (q: Option<Quant>)
    requires r.Valid()
    modifies r
    ensures r.Valid()
    ensures q.None? <==> ReadQuant(r.data, old(r.pos)).None?
    ensures q.Some? ==> ReadQuant(r.data, old(r.pos)) == Some((q.value, r.pos))
  {
    hide QuantOf;
    var b := r.Bytes(5);
    if b.None? {
      return None;
    }
    return Some(QuantOf(b.value));
  }

  lemma QuantsStep(data: seq<Byte>, p: nat, n: nat)
    requires n > 0
    ensures ReadQuant(data, p).None? ==> ReadQuants(data, p, n) == None
    ensures ReadQuant(data, p).Some? ==>
              var (q, p1) := ReadQuant(data, p).value;
              ReadQuants(data, p, n) ==
              match ReadQuants(data, p1, n - 1)
              case None => None
              case Some((more, end)) => Some(([q] + more, end))
  {
    hide ReadQuant;
  }

  lemma QuantsEnd(data: seq<Byte>, p: nat)
    ensures ReadQuants(data, p, 0) == Some(([], p))
  {
  }

  method ParseQuants(r: ByteReader, n: nat) returns (quants: Option<seq<Quant>>)
    requires r.Valid()
    modifies r
    ensures r.Valid()
    ensures quants.None? <==> ReadQuants(r.data, old(r.pos), n).None?
    ensures quants.Some? ==> ReadQuants(r.data, old(r.pos), n) == Some((quants.value, r.pos))
  {
    hide ReadQuants, ReadQuant;
    var list: seq<Quant> := [];
    ghost var all := ReadQuants(r.data, r.pos, n);
    for i := 0 to n
      invariant r.Valid()
      invariant all.None? <==> ReadQuants(r.data, r.pos, n - i).None?
      invariant all.Some? ==>
                  && all.value.0 == list + ReadQuants(r.data, r.pos, n - i).value.0
                  && all.value.1 == ReadQuants(r.data, r.pos, n - i).value.1
    {
      QuantsStep(r.data, r.pos, n - i);
      var q := ParseQuant(r);
      if q.None? {
        return None;
      }
      list := list + [q.value];
    }
    QuantsEnd(r.data, r.pos);
    assert list + [] == list;
    return Some(list);
  }

  method ParseProg(r: ByteReader) returns (q: Option<Three<Quant>>)
    requires r.Valid()
    modifies r
    ensures r.Valid()
    ensures q.None? <==> ReadProg(r.data, old(r.pos)).None?
    ensures q.Some? ==> ReadProg(r.data, old(r.pos)) == Some((q.value, r.pos))
  {
    hide QuantOf;
    var quality := r.U8();
    if quality.None? {
      return None;
    }
    var y := ParseQuant(r);
    if y.None? {
      return None;
    }
    var cb := ParseQuant(r);
    if cb.None? {
      return None;
    }
    var cr := ParseQuant(r);
    if cr.None? {
      return None;
    }
    return Some(Three(y.value, cb.value, cr.value));
  }

  lemma ProgsStep(data: seq<Byte>, p: nat, n: nat)
    requires n > 0
    ensures ReadProg(data, p).None? ==> ReadProgs(data, p, n) == None
    ensures ReadProg(data, p).Some? ==>
              var (q, p1) := ReadProg(data, p).value;
              ReadProgs(data, p, n) ==
              match ReadProgs(data, p1, n - 1)
              case None => None
              case Some((more, end)) => Some(([q] + more, end))
  {
    hide ReadProg;
  }

  lemma ProgsEnd(data: seq<Byte>, p: nat)
    ensures ReadProgs(data, p, 0) == Some(([], p))
  {
  }

  method ParseProgs(r: ByteReader, n: nat) returns (progs: Option<seq<Three<Quant>>>)
    requires r.Valid()
    modifies r
    ensures r.Valid()
    ensures progs.None? <==> ReadProgs(r.data, old(r.pos), n).None?
    ensures progs.Some? ==> ReadProgs(r.data, old(r.pos), n) == Some((progs.value, r.pos))
  {
    hide ReadProgs, ReadProg;
    var list: seq<Three<Quant>> := [];
    ghost var all := ReadProgs(r.data, r.pos, n);
    for i := 0 to n
      invariant r.Valid()
      invariant all.None? <==> ReadProgs(r.data, r.pos, n - i).None?
      invariant all.Some? ==>
                  && all.value.0 == list + ReadProgs(r.data, r.pos, n - i).value.0
                  && all.value.1 == ReadProgs(r.data, r.pos, n - i).value.1
    {
      ProgsStep(r.data, r.pos, n - i);
      var q := ParseProg(r);
      if q.None? {
        return None;
      }
      list := list + [q.value];
    }
    ProgsEnd(r.data, r.pos);
    assert list + [] == list;
    return Some(list);
  }

  /** The fixed fields of a region: tile size, the three table counts, flags and the length of the tile stream. */
  datatype RegionFields = RegionFields(tileSize: Byte, rects: U16, quants: Byte, progs: Byte, flags: Byte, size: U32)

  method ParseRegionFields(r: ByteReader) returns (f: Option<RegionFields>)
    requires r.Valid() && r.pos == 0
    modifies r
    ensures r.Valid()
    ensures f.None? <==> |r.data| < REGION_HEADER
    ensures f.Some? ==>
              && r.pos == REGION_HEADER
              && f.value == RegionFields(r.data[0], Field16(r.data, 1), r.data[3], r.data[4], r.data[5],
                                         Le32(r.data[8], r.data[9], r.data[10], r.data[11]))
  {
    hide Le16, Le32;
    var tileSize := r.U8();
    if tileSize.None? {
      return None;
    }
    var rects := r.U16();
    if rects.None? {
      return None;
    }
    var counts := ReadThree(r);
    if counts.None? {
      return None;
    }
    var numTiles := r.U16();
    if numTiles.None? {
      return None;
    }
    var size := r.U32();
    if size.None? {
      return None;
    }
    return Some(RegionFields(tileSize.value, rects.value, counts.value.y, counts.value.cb, counts.value.cr, size.value));
  }

  method ParseRegion(body: seq<Byte>) returns (region: Option<Region>)
    ensures region == ReadRegion(body)
  {
    hide Field16, Le32, ReadRects, ReadQuants, ReadProgs, ReadBytes;
    var r := new ByteReader(body);
    var f := ParseRegionFields(r);
    if f.None? || f.value.tileSize != TILE {
      return None;
    }
    var rects := ParseRects(r, f.value.rects);
    if rects.None? {
      return None;
    }
    var quants := ParseQuants(r, f.value.quants);
    if quants.None? {
      return None;
    }
    var progs := ParseProgs(r, f.value.progs);
    if progs.None? {
      return None;
    }
    var tiles := r.Bytes(f.value.size);
    if tiles.None? {
      return None;
    }
    return Some(Region(rects.value, Tables(quants.value, progs.value, f.value.flags % 2 == 1), tiles.value));
  }

  // ---------- Compositing ----------

  lemma AppendedRow(sub: seq<Pixel>, w: nat, n: nat, line: seq<Pixel>)
    requires |sub| == At(0, w, n, 0) && |line| == w
    ensures |sub + line| == At(0, w, n + 1, 0) && RowsOf(sub + line, w, n + 1) == RowsOf(sub, w, n) + [line]
  {
    hide At;
    AtCol(0, w, n, 0);
    forall y | 0 <= y < n
      ensures RowAt(sub + line, w, y) == RowAt(sub, w, y)
    {
      AtCol(0, w, y, 0);
      RowsGrow(w, y + 1, n);
    }
    assert RowAt(sub + line, w, n) == line;
  }

  /** Copies the part `m` of a tile's pixels into a buffer of its own. */
  method CutOut(pixels: seq<Pixel>, cell: Rect, m: Rect) returns (sub: seq<Pixel>)
    requires |pixels| == TILE * TILE && cell.w == cell.h == TILE
    requires cell.x <= m.x && m.x + m.w <= cell.x + TILE && cell.y <= m.y && m.y + m.h <= cell.y + TILE
    ensures |sub| == At(0, m.w, m.h, 0)
    ensures |RowsOf(pixels, TILE, TILE)| == TILE && Wide(RowsOf(pixels, TILE, TILE), TILE)
    ensures RowsOf(sub, m.w, m.h) == SubRows(RowsOf(pixels, TILE, TILE), cell, m)
  {
    hide At, RowsOf;
    AtIs(0, TILE, TILE, 0);
    AtIs(0, m.w, 0, 0);
    RowsAreWide(pixels, TILE, TILE);
    ghost var goal := SubRows(RowsOf(pixels, TILE, TILE), cell, m);
    sub := [];
    NoRows(m.w);
    for row := 0 to m.h
      invariant |sub| == At(0, m.w, row, 0) && RowsOf(sub, m.w, row) == goal[..row]
    {
      var srcOff := At(0, TILE, m.y - cell.y + row, m.x - cell.x);
      LineOf(pixels, m.y - cell.y + row, m.x - cell.x, m.w);
      AppendedRow(sub, m.w, row, pixels[srcOff..srcOff + m.w]);
      sub := sub + pixels[srcOff..srcOff + m.w];
    }
    assert goal[..m.h] == goal;
  }

  lemma NoRows(w: nat)
    ensures RowsOf<Pixel>([], w, 0) == []
  {
  }

  lemma LineOf(pixels: seq<Pixel>, y: nat, x: nat, w: nat)
    requires |pixels| == TILE * TILE && y < TILE && x + w <= TILE
    ensures At(0, TILE, y, x) + w <= |pixels| && |RowsOf(pixels, TILE, TILE)[y]| == TILE
    ensures pixels[At(0, TILE, y, x)..At(0, TILE, y, x) + w] == RowsOf(pixels, TILE, TILE)[y][x..x + w]
  {
    hide At;
    AtIs(0, TILE, y, x);
    AtIs(0, TILE, y, 0);
    var a := At(0, TILE, y, 0);
    var line := RowsOf(pixels, TILE, TILE)[y];
    assert line == pixels[a..a + TILE];
    assert line[x..x + w] == pixels[a + x..a + x + w];
  }

  /** One rectangle of one tile. */
  method CompositeRect(tile: Waiting, rect: Rect, target: Surface, origin: (nat, nat)) returns (dropped: nat)
    requires target.Valid() && |tile.pixels| == TILE * TILE
    modifies target.pixels
    ensures Shaped(DecodedOf(tile)) && target.View() == DrawInRect(old(target.View()), DecodedOf(tile), rect, origin)
    ensures dropped == LostInRect(target.View(), DecodedOf(tile), rect, origin)
  {
    hide At, RowsOf, Blitted, SubRows, Visible, BlitOutcome, Meet, Source;
    WaitingIsShaped(tile);
    var cell := Rect(origin.0 + tile.x * TILE, origin.1 + tile.y * TILE, TILE, TILE);
    var meet := Meet(cell, Moved(rect, origin));
    if meet.None? {
      return 0;
    }
    var m := meet.value;
    MeetIsBoth(cell, Moved(rect, origin), 0, 0);
    var sub := CutOut(tile.pixels, cell, m);
    var outcome := target.BlitRect(m.x, m.y, m.w, m.h, sub);
    WholeRect(target.View(), m, sub);
    dropped := outcome.Dropped();
  }

  lemma WaitingIsShaped(tile: Waiting)
    requires |tile.pixels| == TILE * TILE
    ensures Shaped(DecodedOf(tile))
  {
    hide RowsOf;
    AtIs(0, TILE, TILE, 0);
    RowsAreWide(tile.pixels, TILE, TILE);
  }

  lemma WholeRect(c: Canvas, m: Rect, sub: seq<Pixel>)
    requires |sub| == At(0, m.w, m.h, 0)
    ensures Source(sub, m.w, m.h) == RowsOf(sub, m.w, m.h)
    ensures BlitOutcome(c, m.x, m.y, m.w, m.h, |sub|) == WriteOutcome(m.w * m.h, Visible(c, m), false)
  {
    hide At, RowsOf, Visible;
    EnoughRows(m.w, m.h, At(0, m.w, m.h, 0));
  }

  lemma LostSameSize(a: Canvas, b: Canvas, d: Decoded, rect: Rect, origin: (nat, nat))
    requires a.width == b.width && a.height == b.height
    ensures LostInRect(a, d, rect, origin) == LostInRect(b, d, rect, origin)
  {
  }

  lemma {:induction false} LostInRectsSameSize(a: Canvas, b: Canvas, d: Decoded, rects: seq<Rect>, origin: (nat, nat))
    requires a.width == b.width && a.height == b.height
    ensures LostInRects(a, d, rects, origin) == LostInRects(b, d, rects, origin)
  {
    hide LostInRect;
    if rects != [] {
      LostSameSize(a, b, d, rects[0], origin);
      LostInRectsSameSize(a, b, d, rects[1..], origin);
    }
  }

  method CompositeTile(tile: Waiting, rects: seq<Rect>, target: Surface, origin: (nat, nat)) returns (dropped: nat)
    requires target.Valid() && |tile.pixels| == TILE * TILE
    modifies target.pixels
    ensures Shaped(DecodedOf(tile)) && target.View() == DrawInRects(old(target.View()), DecodedOf(tile), rects, origin)
    ensures dropped == LostInRects(target.View(), DecodedOf(tile), rects, origin)
  {
    hide DrawInRect, LostInRect, RowsOf, DecodedOf;
    WaitingIsShaped(tile);
    ghost var d, c := DecodedOf(tile), target.View();
    dropped := 0;
    assert rects[0..] == rects;
    for i := 0 to |rects|
      invariant DrawInRects(c, d, rects, origin) == DrawInRects(target.View(), d, rects[i..], origin)
      invariant LostInRects(c, d, rects, origin) == dropped + LostInRects(c, d, rects[i..], origin)
    {
      var n := CompositeRect(tile, rects[i], target, origin);
      LostSameSize(target.View(), c, d, rects[i], origin);
      assert rects[i..][1..] == rects[i + 1..];
      dropped := dropped + n;
    }
    LostInRectsSameSize(target.View(), c, d, rects, origin);
  }

  lemma CompositeStep(c: Canvas, pending: seq<Decoded>, rects: seq<Rect>, origin: (nat, nat), size: Canvas)
    requires pending != [] && AllShaped(pending)
    ensures var d := pending[0];
            && AllShaped(pending[1..])
            && Composite(c, pending, rects, origin)
               == Composite(if Rejected(c, d, origin) then c else DrawInRects(c, d, rects, origin), pending[1..], rects, origin)
            && Lost(size, pending, rects, origin)
               == (if Rejected(size, d, origin) then 0 else LostInRects(size, d, rects, origin)) + Lost(size, pending[1..], rects, origin)
            && RejectedCount(size, pending, origin)
               == (if Rejected(size, d, origin) then 1 else 0) + RejectedCount(size, pending[1..], origin)
  {
    hide DrawInRects, LostInRects, Rejected;
  }

  /** Composites every tile that was decoded, in order; a tile wholly outside the surface is counted and left out. */
  method CompositeRegionRects(tiles: seq<Waiting>, rects: seq<Rect>, target: Surface, origin: (nat, nat))
    returns (rejected: nat, droppedPixels: nat)
    requires target.Valid() && Whole(tiles)
    modifies target.pixels
    ensures AllShaped(AllDecoded(tiles)) && target.View() == Composite(old(target.View()), AllDecoded(tiles), rects, origin)
    ensures rejected == RejectedCount(old(target.View()), AllDecoded(tiles), origin)
    ensures droppedPixels == Lost(old(target.View()), AllDecoded(tiles), rects, origin)
  {
    hide DrawInRects, LostInRects, RowsOf, DecodedOf, Composite, Lost, RejectedCount;
    TilesAreShaped(tiles);
    ghost var c, all := target.View(), AllDecoded(tiles);
    rejected, droppedPixels := 0, 0;
    assert all[0..] == all;
    for i := 0 to |tiles|
      invariant AllShaped(all[i..])
      invariant target.View().width == c.width && target.View().height == c.height
      invariant Composite(c, all, rects, origin) == Composite(target.View(), all[i..], rects, origin)
      invariant Lost(c, all, rects, origin) == droppedPixels + Lost(c, all[i..], rects, origin)
      invariant RejectedCount(c, all, origin) == rejected + RejectedCount(c, all[i..], origin)
    {
      var tile := tiles[i];
      CompositeStep(target.View(), all[i..], rects, origin, c);
      assert all[i..][1..] == all[i + 1..] && all[i] == DecodedOf(tile);
      PlaceOf(tile);
      if origin.0 + tile.x * TILE >= target.width || origin.1 + tile.y * TILE >= target.height {
        rejected := rejected + 1;
      } else {
        var n := CompositeTile(tile, rects, target, origin);
        LostInRectsSameSize(target.View(), c, DecodedOf(tile), rects, origin);
        droppedPixels := droppedPixels + n;
      }
    }
    CompositeEnd(target.View(), all[|tiles|..], rects, origin, c);
  }

  lemma CompositeEnd(c: Canvas, pending: seq<Decoded>, rects: seq<Rect>, origin: (nat, nat), size: Canvas)
    requires pending == []
    ensures AllShaped(pending) && Composite(c, pending, rects, origin) == c
    ensures Lost(size, pending, rects, origin) == 0 && RejectedCount(size, pending, origin) == 0
  {
  }

  lemma PlaceOf(tile: Waiting)
    ensures DecodedOf(tile).x == tile.x && DecodedOf(tile).y == tile.y
  {
  }

  lemma TilesAreShaped(tiles: seq<Waiting>)
    requires Whole(tiles)
    ensures AllShaped(AllDecoded(tiles))
  {
    hide RowsOf;
    forall i | 0 <= i < |tiles|
      ensures Shaped(AllDecoded(tiles)[i])
    {
      WaitingIsShaped(tiles[i]);
    }
  }
}
