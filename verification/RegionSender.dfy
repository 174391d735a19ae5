/** A sender of Progressive bitstreams that mirrors the receiver's tiles, and what its regions leave on a surface. */
module RegionSender {
  import opened Machine
  import opened Canvas
  import opened Quants
  import opened TileBlocks
  import opened TileSender
  import opened Regions
  import opened RegionBytes

  /** A tile's coefficients sent for the first time, differences to be added to them, or either refined to lower bit positions. */
  datatype Command =
    | First(x: U16, y: U16, index: Three<Byte>, quality: Byte, simple: bool, ts: Source)
    | Differ(x: U16, y: U16, index: Three<Byte>, quality: Byte, simple: bool, ts: Source)
    | Refine(x: U16, y: U16, index: Three<Byte>, quality: Byte, pads: Three<(nat, nat)>)

  /** What was sent last for a tile, `ts`, the state this part of the tile has reached, and the coefficients it was added to. */
  datatype Held = Held(under: Layer, top: TileState, ts: Source)

  type Mirror = map<(U16, U16), Held>

  /** The tile holds what was sent last for it, at its bit positions. */
  ghost predicate HeldShows(held: Held, extrapolate: bool) {
    Sized(held.under) && held.top.Valid() && CodableTile(held.ts) && TileShows(held.top, held.ts, extrapolate)
  }

  /** The tile state a client must have. */
  function StateOf(held: Held): (s: TileState)
    requires Sized(held.under) && held.top.Valid()
    ensures s.Valid() && BitsOf(s) == BitsOf(held.top)
  {
    TileOver(held.under, held.top)
  }

  /** The coefficients of a tile as the sender knows them: what was sent last, as far as it is known, on what was there before. */
  function CoefficientsOf(held: Held, extrapolate: bool): (r: Layer)
    requires HeldShows(held, extrapolate)
    ensures Sized(r) && r == CurrentsOf(StateOf(held))
  {
    CurrentsAreCoefficients(held.under, held.top, held.ts, extrapolate);
    CoefficientsAt(held.under, held.ts, BitsOf(held.top), extrapolate)
  }

  // ---------- One command ----------

  /** The bit positions a command asks for. */
  function BitsFor(c: Command, t: Tables): Option<Three<Quant>> {
    BitPositions(t, c.index, c.quality)
  }

  ghost predicate CanSendWhole(c: Command, t: Tables, bits: Three<Quant>, m: Mirror)
    requires !c.Refine?
  {
    && CodableTile(c.ts) && PositiveTile(bits) && (c.Differ? ==> (c.x, c.y) in m && HeldShows(m[(c.x, c.y)], t.extrapolate))
    && TileFits(FirstBlock(c.x, c.y, c.index, c.Differ?, c.quality, c.ts, bits, t.extrapolate), !c.simple)
  }

  ghost predicate CanRefine(c: Command, t: Tables, bits: Three<Quant>, m: Mirror)
    requires c.Refine?
  {
    && (c.x, c.y) in m
    && var held := m[(c.x, c.y)];
       && HeldShows(held, t.extrapolate) && LowersTile(held.top, bits)
       && UpgradeFits(NextBlock(held.top, c.x, c.y, c.index, c.quality, held.ts, bits, c.pads, t.extrapolate))
  }

  /** Table indexes exist, positions are positive and fall by at most fifteen, and every length has its two bytes. */
  ghost predicate CanSend(c: Command, t: Tables, m: Mirror) {
    match BitsFor(c, t)
    case None => false
    case Some(bits) => if c.Refine? then CanRefine(c, t, bits, m) else CanSendWhole(c, t, bits, m)
  }

  ghost function TileBlockOf(c: Command, t: Tables, m: Mirror): TileBlock
    requires !c.Refine? && BitsFor(c, t).Some? && CanSendWhole(c, t, BitsFor(c, t).value, m)
  {
    FirstBlock(c.x, c.y, c.index, c.Differ?, c.quality, c.ts, BitsFor(c, t).value, t.extrapolate)
  }

  ghost function UpgradeBlockOf(c: Command, t: Tables, m: Mirror): UpgradeBlock
    requires c.Refine? && BitsFor(c, t).Some? && CanRefine(c, t, BitsFor(c, t).value, m)
  {
    var held := m[(c.x, c.y)];
    NextBlock(held.top, c.x, c.y, c.index, c.quality, held.ts, BitsFor(c, t).value, c.pads, t.extrapolate)
  }

  function KindOf(c: Command): U16 {
    if c.Refine? then TILE_UPGRADE else if c.simple then TILE_SIMPLE else TILE_FIRST
  }

  ghost function BodyOf(c: Command, t: Tables, m: Mirror): (body: seq<Byte>)
    requires CanSend(c, t, m)
    ensures |body| < 0x10_0000
  {
    if c.Refine? then UpgradeBlockBytes(UpgradeBlockOf(c, t, m)) else TileBytes(TileBlockOf(c, t, m), !c.simple)
  }

  /** What the sender holds of the tile behind the command: differences lie on the coefficients before them. */
  ghost function HeldAfter(c: Command, t: Tables, m: Mirror): (held: Held)
    requires CanSend(c, t, m)
    ensures Sized(held.under) && held.top.Valid()
  {
    var bits := BitsFor(c, t).value;
    match c
    case First(_, _, _, _, _, ts) => Held(NoLayer(), FirstState(TileBlockOf(c, t, m), bits, t.extrapolate), ts)
    case Differ(x, y, _, _, _, ts) =>
      Held(CoefficientsOf(m[(x, y)], t.extrapolate), FirstState(TileBlockOf(c, t, m), bits, t.extrapolate), ts)
    case Refine(x, y, _, _, _) =>
      var held := m[(x, y)];
      UpgradeTaken(held.top, bits);
      held.(top := UpgradedState(held.top, UpgradeBlockOf(c, t, m), bits, t.extrapolate))
  }

  lemma UpgradeTaken(s: TileState, bits: Three<Quant>)
    requires LowersTile(s, bits)
    ensures MayUpgradeAll(s, bits)
  {
  }

  ghost function After(c: Command, t: Tables, m: Mirror): Mirror
    requires CanSend(c, t, m)
  {
    m[(c.x, c.y) := HeldAfter(c, t, m)]
  }

  /** Every tile the sender holds shows its coefficients. */
  ghost predicate Faithful(m: Mirror, extrapolate: bool) {
    forall k :: k in m ==> HeldShows(m[k], extrapolate)
  }

  /** The receiver has every tile the sender believes it has. */
  ghost predicate Mirrors(base: Baseline, surface: U16, m: Mirror, extrapolate: bool)
    requires Faithful(m, extrapolate)
  {
    forall k :: k in m ==> Key(surface, k.0, k.1) in base && base[Key(surface, k.0, k.1)] == StateOf(m[k])
  }

  ghost predicate InStep(base: Baseline, surface: U16, m: Mirror, extrapolate: bool) {
    AllValid(base) && Faithful(m, extrapolate) && Mirrors(base, surface, m, extrapolate)
  }

  /** Whatever the command, what was sent last for the tile is shown at the bit positions asked for. */
  lemma AfterShows(c: Command, t: Tables, m: Mirror)
    requires CanSend(c, t, m)
    ensures HeldShows(HeldAfter(c, t, m), t.extrapolate)
    ensures BitsOf(HeldAfter(c, t, m).top) == BitsFor(c, t).value
  {
    hide TileShows, CodableTile, PositiveTile, LowersTile, FirstState, UpgradedState, FirstBlock, NextBlock, TileFits, UpgradeFits, BitPositions,
         CoefficientsAt;
    var bits := BitsFor(c, t).value;
    if c.Refine? {
      var held := m[(c.x, c.y)];
      NextBlockIs(c, t, m);
      NextTileShows(held.top, UpgradeBlockOf(c, t, m), held.ts, bits, c.pads, t.extrapolate);
    } else {
      WholeBlockIs(c, t, m);
      FirstTileShows(TileBlockOf(c, t, m), c.ts, bits, t.extrapolate);
    }
  }

  lemma WholeBlockIs(c: Command, t: Tables, m: Mirror)
    requires !c.Refine? && BitsFor(c, t).Some? && CanSendWhole(c, t, BitsFor(c, t).value, m)
    ensures var b := TileBlockOf(c, t, m);
            b.x == c.x && b.y == c.y && b.index == c.index && b.quality == c.quality && b.difference == c.Differ?
  {
  }

  lemma NextBlockIs(c: Command, t: Tables, m: Mirror)
    requires c.Refine? && BitsFor(c, t).Some? && CanRefine(c, t, BitsFor(c, t).value, m)
    ensures var u := UpgradeBlockOf(c, t, m); u.x == c.x && u.y == c.y && u.index == c.index && u.quality == c.quality
  {
  }

  lemma ShiftsOfPositive(bits: Three<Quant>)
    requires PositiveTile(bits)
    ensures ShiftsExist(bits)
  {
  }

  /** What the receiver stores for a block that carries a whole tile. */
  lemma WholeIsStored(c: Command, t: Tables, m: Mirror, base: Baseline, surface: U16)
    requires CanSend(c, t, m) && InStep(base, surface, m, t.extrapolate) && !c.Refine?
    ensures ApplyTile(base, Key(surface, c.x, c.y), TileBlockOf(c, t, m), BitsFor(c, t).value, t.extrapolate)
         == Stored(base, Key(surface, c.x, c.y), StateOf(HeldAfter(c, t, m)), t.extrapolate)
  {
    hide TileShows, CodableTile, PositiveTile, TileFits, BitPositions, FirstState, FirstBlock, Stored, DifferedState, TileOver, CurrentsOf,
         CoefficientsAt, AllValid;
    var key := Key(surface, c.x, c.y);
    WholeBlockIs(c, t, m);
    var s := FirstState(TileBlockOf(c, t, m), BitsFor(c, t).value, t.extrapolate);
    if c.First? {
      TileOverNothing(s);
    } else {
      HeldIsStored(base, surface, m, t.extrapolate, c.x, c.y);
      DifferedTileIsOver(base[key], s);
    }
  }

  lemma HeldIsStored(base: Baseline, surface: U16, m: Mirror, extrapolate: bool, x: U16, y: U16)
    requires InStep(base, surface, m, extrapolate) && (x, y) in m
    ensures HeldShows(m[(x, y)], extrapolate)
    ensures var key := Key(surface, x, y); key in base && base[key] == StateOf(m[(x, y)]) && base[key].Valid()
  {
    hide TileShows, CodableTile, TileOver;
    var k := (x, y);
    assert k in m && HeldShows(m[k], extrapolate);
  }

  /** The receiver stores exactly the state the sender computes, and shows its picture. */
  lemma CommandBack(c: Command, t: Tables, m: Mirror, base: Baseline, surface: U16)
    requires CanSend(c, t, m) && InStep(base, surface, m, t.extrapolate)
    ensures HeldShows(HeldAfter(c, t, m), t.extrapolate)
    ensures DecodeBlock(base, surface, KindOf(c), BodyOf(c, t, m), t)
         == Stored(base, Key(surface, c.x, c.y), StateOf(HeldAfter(c, t, m)), t.extrapolate)
  {
    AfterShows(c, t, m);
    if c.Refine? {
      RefineBack(c, t, m, base, surface);
    } else {
      WholeBack(c, t, m, base, surface);
    }
  }

  lemma WholeBack(c: Command, t: Tables, m: Mirror, base: Baseline, surface: U16)
    requires CanSend(c, t, m) && InStep(base, surface, m, t.extrapolate) && !c.Refine?
    ensures DecodeBlock(base, surface, KindOf(c), BodyOf(c, t, m), t)
         == Stored(base, Key(surface, c.x, c.y), StateOf(HeldAfter(c, t, m)), t.extrapolate)
  {
    hide HeldShows, CodableTile, PositiveTile, TileFits, BitPositions, TileBytes, ReadTile, ShiftsExist, FirstBlock, Stored, ApplyTile,
         HeldAfter, StateOf, Faithful, Mirrors;
    WholeBlockIs(c, t, m);
    TileBack(TileBlockOf(c, t, m), !c.simple);
    ShiftsOfPositive(BitsFor(c, t).value);
    WholeIsStored(c, t, m, base, surface);
  }

  lemma RefineBack(c: Command, t: Tables, m: Mirror, base: Baseline, surface: U16)
    requires CanSend(c, t, m) && InStep(base, surface, m, t.extrapolate) && c.Refine?
    ensures DecodeBlock(base, surface, KindOf(c), BodyOf(c, t, m), t)
         == Stored(base, Key(surface, c.x, c.y), StateOf(HeldAfter(c, t, m)), t.extrapolate)
  {
    hide TileShows, CodableTile, LowersTile, UpgradedState, UpgradeFits, BitPositions, Render, UpgradeBlockBytes, ReadUpgrade, MayUpgradeAll,
         NextBlock, TileOver, Faithful, Mirrors;
    var held, bits, u := m[(c.x, c.y)], BitsFor(c, t).value, UpgradeBlockOf(c, t, m);
    NextBlockIs(c, t, m);
    UpgradeBack(u);
    UpgradeTaken(held.top, bits);
    HeldIsStored(base, surface, m, t.extrapolate, c.x, c.y);
    UpgradedTileOver(held.under, held.top, u, bits, t.extrapolate);
  }

  lemma StoredInStep(c: Command, t: Tables, m: Mirror, base: Baseline, surface: U16)
    requires CanSend(c, t, m) && InStep(base, surface, m, t.extrapolate) && HeldShows(HeldAfter(c, t, m), t.extrapolate)
    ensures InStep(Stored(base, Key(surface, c.x, c.y), StateOf(HeldAfter(c, t, m)), t.extrapolate).base, surface, After(c, t, m), t.extrapolate)
  {
    hide HeldAfter, CanSend, Render, TileShows, CodableTile, TileOver;
  }

  // ---------- The tiles of a region ----------

  ghost predicate CanSendAll(cs: seq<Command>, t: Tables, m: Mirror)
    decreases |cs|
  {
    cs == [] || (CanSend(cs[0], t, m) && CanSendAll(cs[1..], t, After(cs[0], t, m)))
  }

  ghost function AfterAll(cs: seq<Command>, t: Tables, m: Mirror): Mirror
    requires CanSendAll(cs, t, m)
    decreases |cs|
  {
    if cs == [] then m else AfterAll(cs[1..], t, After(cs[0], t, m))
  }

  ghost function TileStream(cs: seq<Command>, t: Tables, m: Mirror): seq<Byte>
    requires CanSendAll(cs, t, m)
    decreases |cs|
  {
    if cs == [] then [] else BlockBytes(KindOf(cs[0]), BodyOf(cs[0], t, m)) + TileStream(cs[1..], t, After(cs[0], t, m))
  }

  /** The pictures are those of the commands' tiles, in order. */
  ghost predicate SameTiles(pending: seq<Decoded>, cs: seq<Command>) {
    |pending| == |cs| && forall i :: 0 <= i < |cs| ==> pending[i].x == cs[i].x && pending[i].y == cs[i].y
  }

  /** The stream's first block is decoded first. */
  lemma FirstDecodes(tiles: seq<Byte>, pos: nat, kind: U16, body: seq<Byte>, rest: seq<Byte>, t: Tables, base: Baseline, surface: U16)
    requires |body| + BLOCK_HEADER < 0x1_0000_0000 && AllValid(base)
    requires pos <= |tiles| && tiles[pos..] == BlockBytes(kind, body) + rest
    ensures var o, end := DecodeBlock(base, surface, kind, body, t), pos + (|body| + BLOCK_HEADER);
            && AllValid(o.base) && end <= |tiles| && tiles[end..] == rest
            && DecodeTiles(base, surface, t, tiles, pos) == Prepend(o, DecodeTiles(o.base, surface, t, tiles, end))
  {
    hide DecodeBlock, BlockLength, Field16, BlockBytes, Prepend, AllValid, OnlyOwnEntry;
    BlockBack(tiles, pos, kind, body, rest);
    BlockIsAtomic(base, surface, kind, body, t);
  }

  /** The receiver stores what the command's tile shows, and goes on behind its block. */
  lemma CommandDecodes(tiles: seq<Byte>, pos: nat, c: Command, rest: seq<Byte>, t: Tables, m: Mirror, base: Baseline, surface: U16)
    requires CanSend(c, t, m) && AllValid(base) && InStep(base, surface, m, t.extrapolate)
    requires pos <= |tiles| && tiles[pos..] == BlockBytes(KindOf(c), BodyOf(c, t, m)) + rest
    ensures var o := Stored(base, Key(surface, c.x, c.y), StateOf(HeldAfter(c, t, m)), t.extrapolate);
            var end := pos + 6 + |BodyOf(c, t, m)|;
            && AllValid(o.base) && InStep(o.base, surface, After(c, t, m), t.extrapolate)
            && end <= |tiles| && tiles[end..] == rest
            && DecodeTiles(base, surface, t, tiles, pos) == Prepend(o, DecodeTiles(o.base, surface, t, tiles, end))
  {
    hide CanSend, BodyOf, KindOf, HeldAfter, After, Stored, StateOf, HeldShows, DecodeBlock, BlockBytes, DecodeTiles, InStep, Prepend;
    FirstDecodes(tiles, pos, KindOf(c), BodyOf(c, t, m), rest, t, base, surface);
    CommandBack(c, t, m, base, surface);
    StoredInStep(c, t, m, base, surface);
  }

  /** Every block of the stream decodes, and the receiver's tiles stay what the sender believes. */
  lemma {:induction false} TilesInStep(tiles: seq<Byte>, pos: nat, cs: seq<Command>, t: Tables, m: Mirror, base: Baseline, surface: U16)
    requires CanSendAll(cs, t, m) && AllValid(base) && InStep(base, surface, m, t.extrapolate)
    requires pos <= |tiles| && tiles[pos..] == TileStream(cs, t, m)
    ensures var r := DecodeTiles(base, surface, t, tiles, pos);
            r.ok && SameTiles(r.pending, cs) && InStep(r.base, surface, AfterAll(cs, t, m), t.extrapolate)
    decreases |cs|
  {
    hide *;
    if cs == [] {
      NothingDecodes(tiles, pos, t, m, base, surface);
    } else {
      StreamStep(cs, t, m);
      var c := cs[0];
      CommandDecodes(tiles, pos, c, TileStream(cs[1..], t, After(c, t, m)), t, m, base, surface);
      var o := Stored(base, Key(surface, c.x, c.y), StateOf(HeldAfter(c, t, m)), t.extrapolate);
      var end := pos + 6 + |BodyOf(c, t, m)|;
      TilesInStep(tiles, end, cs[1..], t, After(c, t, m), o.base, surface);
      StoredIs(base, Key(surface, c.x, c.y), StateOf(HeldAfter(c, t, m)), t.extrapolate);
      Prepended(o, DecodeTiles(o.base, surface, t, tiles, end), cs);
    }
  }

  lemma NothingDecodes(tiles: seq<Byte>, pos: nat, t: Tables, m: Mirror, base: Baseline, surface: U16)
    requires AllValid(base) && pos <= |tiles| && tiles[pos..] == TileStream([], t, m)
    ensures DecodeTiles(base, surface, t, tiles, pos) == Run(base, [], true) && SameTiles([], []) && AfterAll([], t, m) == m
  {
  }

  lemma StreamStep(cs: seq<Command>, t: Tables, m: Mirror)
    requires cs != [] && CanSendAll(cs, t, m)
    ensures CanSend(cs[0], t, m) && CanSendAll(cs[1..], t, After(cs[0], t, m))
    ensures TileStream(cs, t, m) == BlockBytes(KindOf(cs[0]), BodyOf(cs[0], t, m)) + TileStream(cs[1..], t, After(cs[0], t, m))
    ensures AfterAll(cs, t, m) == AfterAll(cs[1..], t, After(cs[0], t, m))
  {
    hide CanSend, BodyOf, KindOf, After, BlockBytes;
  }

  lemma StoredIs(base: Baseline, key: Key, s: TileState, extrapolate: bool)
    ensures var o := Stored(base, key, s, extrapolate);
            o.ok && o.pushed.Some? && o.pushed.value.x == key.x && o.pushed.value.y == key.y
  {
    hide Render;
  }

  lemma Prepended(o: Outcome, rest: Run, cs: seq<Command>)
    requires cs != [] && o.ok && rest.ok && o.pushed.Some? && o.pushed.value.x == cs[0].x && o.pushed.value.y == cs[0].y
    requires SameTiles(rest.pending, cs[1..])
    ensures Prepend(o, rest).ok && SameTiles(Prepend(o, rest).pending, cs) && Prepend(o, rest).base == rest.base
  {
  }

  // ---------- A region on a surface ----------

  ghost predicate Touched(cs: seq<Command>, x: U16, y: U16) {
    exists i :: 0 <= i < |cs| && cs[i].x == x && cs[i].y == y
  }

  lemma {:induction false} TouchedIsHeld(cs: seq<Command>, t: Tables, m: Mirror, x: U16, y: U16)
    requires CanSendAll(cs, t, m)
    ensures (x, y) in m || Touched(cs, x, y) ==> (x, y) in AfterAll(cs, t, m)
    decreases |cs|
  {
    hide CanSend, HeldAfter;
    if cs != [] {
      TouchedIsHeld(cs[1..], t, After(cs[0], t, m), x, y);
      if Touched(cs, x, y) && !(cs[0].x == x && cs[0].y == y) {
        var i :| 0 <= i < |cs| && cs[i].x == x && cs[i].y == y;
        assert cs[1..][i - 1] == cs[i];
      }
    }
  }

  lemma HeldIsRendered(base: Baseline, surface: U16, m: Mirror, extrapolate: bool, x: U16, y: U16)
    requires InStep(base, surface, m, extrapolate) && (x, y) in m
    ensures Key(surface, x, y) in base && HeldShows(m[(x, y)], extrapolate)
    ensures Render(base[Key(surface, x, y)], extrapolate) == PictureOf(CoefficientsOf(m[(x, y)], extrapolate), extrapolate)
  {
    hide HeldShows, Render, PictureOf, CoefficientsOf, InStep, StateOf;
    HeldIsStored(base, surface, m, extrapolate, x, y);
    RenderIsPicture(base[Key(surface, x, y)], extrapolate);
  }

  ghost function RegionOf(rects: seq<Rect>, t: Tables, cs: seq<Command>, m: Mirror): Region
    requires CanSendAll(cs, t, m)
  {
    Region(rects, t, TileStream(cs, t, m))
  }

  /** Pixel (dx, dy) of a tile in surface coordinates. */
  function PixelX(origin: (nat, nat), x: U16, dx: nat): nat {
    origin.0 + x * TILE + dx
  }

  function PixelY(origin: (nat, nat), y: U16, dy: nat): nat {
    origin.1 + y * TILE + dy
  }

  /** Whether the tiles at (x, y) that the commands send cover the tile's pixels, and no others do. */
  lemma LastInCell(pending: seq<Decoded>, cs: seq<Command>, origin: (nat, nat), x: U16, y: U16, dx: nat, dy: nat)
    requires SameTiles(pending, cs) && dx < TILE && dy < TILE
    ensures var i := LastIn(pending, origin, PixelX(origin, x, dx), PixelY(origin, y, dy));
            && (i.Some? <==> Touched(cs, x, y))
            && (i.Some? ==> pending[i.value].x == x && pending[i.value].y == y &&
                            Cell(pending[i.value], origin).x == origin.0 + x * TILE && Cell(pending[i.value], origin).y == origin.1 + y * TILE)
  {
    hide LastIn;
    var i := LastIn(pending, origin, PixelX(origin, x, dx), PixelY(origin, y, dy));
    if Touched(cs, x, y) {
      var j :| 0 <= j < |cs| && cs[j].x == x && cs[j].y == y;
      assert InRect(Cell(pending[j], origin), PixelX(origin, x, dx), PixelY(origin, y, dy));
    }
    if i.Some? {
      assert cs[i.value].x == pending[i.value].x;
    }
  }

  /** A declared pixel of a tile the region sends shows the sender's picture of it now; any other pixel is as it was. */
  ghost predicate TileShown(before: Canvas, after: Canvas, rects: seq<Rect>, cs: seq<Command>, m: Mirror, extrapolate: bool,
                            origin: (nat, nat), x: U16, y: U16, dx: nat, dy: nat) {
    var px, py := PixelX(origin, x, dx), PixelY(origin, y, dy);
    before.Valid() && after.Valid() && after.width == before.width && after.height == before.height && dx < TILE && dy < TILE &&
    (px < before.width && py < before.height ==>
       if Touched(cs, x, y) && InSome(rects, origin, px, py) then
         (x, y) in m && HeldShows(m[(x, y)], extrapolate) &&
         after.rows[py][px] == PictureOf(CoefficientsOf(m[(x, y)], extrapolate), extrapolate)[dy][dx]
       else after.rows[py][px] == before.rows[py][px])
  }

  lemma RegionInStep(rects: seq<Rect>, t: Tables, cs: seq<Command>, m: Mirror, base: Baseline, surface: U16, c: Canvas, origin: (nat, nat))
    requires CanSendAll(cs, t, m) && AllValid(base) && InStep(base, surface, m, t.extrapolate)
    ensures var r := RegionOf(rects, t, cs, m);
            && InStep(ShowRegion(base, surface, r, c, origin).base, surface, AfterAll(cs, t, m), t.extrapolate)
            && SameTiles(PendingOf(base, surface, r), cs)
  {
    hide InStep, CanSendAll, AfterAll, TileStream, DecodeTiles, SameTiles, AllValid, Composite, Lost, RejectedCount;
    var tiles := TileStream(cs, t, m);
    assert tiles[0..] == tiles;
    TilesInStep(tiles, 0, cs, t, m, base, surface);
  }

  lemma RegionShows(rects: seq<Rect>, t: Tables, cs: seq<Command>, m: Mirror, base: Baseline, surface: U16, c: Canvas, origin: (nat, nat),
                    x: U16, y: U16, dx: nat, dy: nat)
    requires CanSendAll(cs, t, m) && AllValid(base) && InStep(base, surface, m, t.extrapolate) && c.Valid() && dx < TILE && dy < TILE
    ensures var s := ShowRegion(base, surface, RegionOf(rects, t, cs, m), c, origin);
            TileShown(c, s.canvas, rects, cs, AfterAll(cs, t, m), t.extrapolate, origin, x, y, dx, dy)
  {
    hide InStep, CanSendAll, AfterAll, DecodeTiles, SameTiles, AllValid, ShowRegion, PendingOf, RegionOf, HeldShows,
         Render, PictureOf, CoefficientsOf, LastIn, Touched, InSome, Cell;
    var r := RegionOf(rects, t, cs, m);
    var px, py := PixelX(origin, x, dx), PixelY(origin, y, dy);
    var pending, s := PendingOf(base, surface, r), ShowRegion(base, surface, r, c, origin);
    RegionInStep(rects, t, cs, m, base, surface, c, origin);
    LastInCell(pending, cs, origin, x, y, dx, dy);
    TouchedIsHeld(cs, t, m, x, y);
    if px < c.width && py < c.height {
      RegionTables(rects, t, cs, m);
      PictureIsState(base, surface, r, c, origin, px, py);
      if Touched(cs, x, y) {
        HeldIsRendered(s.base, surface, AfterAll(cs, t, m), t.extrapolate, x, y);
      }
    }
  }

  lemma RegionTables(rects: seq<Rect>, t: Tables, cs: seq<Command>, m: Mirror)
    requires CanSendAll(cs, t, m)
    ensures RegionOf(rects, t, cs, m).rects == rects && RegionOf(rects, t, cs, m).tables == t
  {
  }
}
