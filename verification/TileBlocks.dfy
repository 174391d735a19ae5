/** Tile blocks of a Progressive region (sections 2.2.4.2.1.5.3 to 2.2.4.2.1.5.5 of MS-RDPEGFX) and the per-tile state they act on. */
module TileBlocks {
  import opened Machine
  import opened Matrices
  import opened Pixels
  import opened Canvas
  import opened Quants
  import opened Planes
  import W = Wavelet
  import WD = WaveletDecoder
  import E = Extrapolate
  import ED = ExtrapolateDecoder

  /** The state of one grid position: luma and the two chroma components. */
  datatype TileState = TileState(y: Plane, cb: Plane, cr: Plane) {
    predicate Valid() {
      y.Valid() && cb.Valid() && cr.Valid()
    }
  }

  datatype Key = Key(surface: U16, x: U16, y: U16)

  type Baseline = map<Key, TileState>

  ghost predicate AllValid(b: Baseline) {
    forall k :: k in b ==> b[k].Valid()
  }

  // ---------- Pictures ----------

  const TILE := 64

  /** The 64 by 64 samples of a component. */
  function Samples(current: seq<I16>, extrapolate: bool): (m: Matrix)
    ensures Square(m, TILE)
  {
    if extrapolate then E.Picture(ED.SubbandsOf(current)) else W.Picture(WD.SubbandsOf(current))
  }

  const CR_R := 91916
  const CR_G := 46819
  const CB_G := 22527
  const CB_B := 115992

  function Clamp8(x: int): Byte {
    if x < 0 then 0 else if x > 255 then 255 else x
  }

  /** Fixed-point colour conversion; the luma offset and the final shift are those of the client. */
  function YCbCrToBgrx(y: I16, cb: I16, cr: I16): Pixel {
    var yv := (y as int + 4096) * 0x1_0000;
    var r := (cr as int * CR_R + yv) / 0x20_0000;
    var g := (yv - cb as int * CB_G - cr as int * CR_G) / 0x20_0000;
    var b := (cb as int * CB_B + yv) / 0x20_0000;
    Pixel(Clamp8(b), Clamp8(g), Clamp8(r), 0xFF)
  }

  function ConvertRow(y: Line, cb: Line, cr: Line): (row: seq<Pixel>)
    requires |y| == |cb| == |cr| == TILE
    ensures |row| == TILE
  {
    seq(TILE, x requires 0 <= x < TILE => YCbCrToBgrx(y[x], cb[x], cr[x]))
  }

  function Convert(y: Matrix, cb: Matrix, cr: Matrix): (rows: Rows<Pixel>)
    requires Square(y, TILE) && Square(cb, TILE) && Square(cr, TILE)
    ensures |rows| == TILE && Wide(rows, TILE)
  {
    seq(TILE, r requires 0 <= r < TILE => ConvertRow(y[r], cb[r], cr[r]))
  }

  /** What a tile state looks like. */
  function Render(s: TileState, extrapolate: bool): (rows: Rows<Pixel>)
    ensures |rows| == TILE && Wide(rows, TILE)
  {
    Convert(Samples(s.y.current, extrapolate), Samples(s.cb.current, extrapolate), Samples(s.cr.current, extrapolate))
  }

  // ---------- Quantization tables ----------

  datatype Three<T> = Three(y: T, cb: T, cr: T)

  /** The tables of a region, and its wavelet layout. */
  datatype Tables = Tables(quants: seq<Quant>, progs: seq<Three<Quant>>, extrapolate: bool)

  ghost predicate Nibbles(q: Quant) {
    forall i :: 0 <= i < 10 ==> 0 <= q[i] < 16
  }

  /** What the region's own bytes guarantee. */
  ghost predicate TablesValid(t: Tables) {
    && (forall i :: 0 <= i < |t.quants| ==> Nibbles(t.quants[i]))
    && (forall i :: 0 <= i < |t.progs| ==> Nibbles(t.progs[i].y) && Nibbles(t.progs[i].cb) && Nibbles(t.progs[i].cr))
  }

  const FULL_QUALITY := 0xFF

  /** The bit positions a tile block asks for; None if an index is out of range. */
  function BitPositions(t: Tables, index: Three<Byte>, quality: Byte): Option<Three<Quant>> {
    if index.y >= |t.quants| || index.cb >= |t.quants| || index.cr >= |t.quants| then None
    else if quality != FULL_QUALITY && quality >= |t.progs| then None
    else
      var prog := if quality == FULL_QUALITY then Three(ZERO, ZERO, ZERO) else t.progs[quality];
      Some(Three(Add(t.quants[index.y], prog.y), Add(t.quants[index.cb], prog.cb), Add(t.quants[index.cr], prog.cr)))
  }

  // ---------- TILE_SIMPLE and TILE_FIRST ----------

  function Field16(data: seq<Byte>, at: nat): U16
    requires at + 2 <= |data|
  {
    Le16(data[at], data[at + 1])
  }

  datatype TileBlock = TileBlock(index: Three<Byte>, x: U16, y: U16, difference: bool, quality: Byte, data: Three<seq<Byte>>)

  /** TILE_FIRST has a quality byte more than TILE_SIMPLE. */
  function TileHeader(first: bool): nat {
    if first then 17 else 16
  }

  function ReadTile(body: seq<Byte>, first: bool): Option<TileBlock> {
    var h := TileHeader(first);
    if |body| < h then None
    else
      var yEnd := h + Field16(body, h - 8);
      var cbEnd := yEnd + Field16(body, h - 6);
      var crEnd := cbEnd + Field16(body, h - 4);
      if crEnd + Field16(body, h - 2) > |body| then None
      else
        Some(TileBlock(Three(body[0], body[1], body[2]), Field16(body, 3), Field16(body, 5), body[7] % 2 == 1,
                       if first then body[8] else FULL_QUALITY,
                       Three(body[h..yEnd], body[yEnd..cbEnd], body[cbEnd..crEnd])))
  }

  /** A picture to be shown at a grid position. */
  datatype Decoded = Decoded(x: U16, y: U16, pixels: Rows<Pixel>)

  /** The state behind a block, the picture it produced, and whether it was accepted. */
  datatype Outcome = Outcome(base: Baseline, pushed: Option<Decoded>, ok: bool)

  function FirstState(b: TileBlock, bits: Three<Quant>, extrapolate: bool): (s: TileState)
    ensures s.Valid()
  {
    TileState(FirstPlane(b.data.y, bits.y, extrapolate), FirstPlane(b.data.cb, bits.cb, extrapolate),
              FirstPlane(b.data.cr, bits.cr, extrapolate))
  }

  function DifferedState(state: TileState, delta: TileState): (s: TileState)
    requires state.Valid() && delta.Valid()
    ensures s.Valid()
  {
    TileState(Differed(state.y, delta.y), Differed(state.cb, delta.cb), Differed(state.cr, delta.cr))
  }

  /** Stores a state and shows it. */
  function Stored(base: Baseline, key: Key, s: TileState, extrapolate: bool): Outcome {
    Outcome(base[key := s], Some(Decoded(key.x, key.y, Render(s, extrapolate))), true)
  }

  function ApplyTile(base: Baseline, key: Key, b: TileBlock, bits: Three<Quant>, extrapolate: bool): Outcome
    requires key in base ==> base[key].Valid()
  {
    var s := FirstState(b, bits, extrapolate);
    if !b.difference then Stored(base, key, s, extrapolate)
    else if key in base then Stored(base, key, DifferedState(base[key], s), extrapolate)
    else Outcome(base, None, true)
  }

  function ShiftsExist(bits: Three<Quant>): bool {
    Sub1(bits.y).Some? && Sub1(bits.cb).Some? && Sub1(bits.cr).Some?
  }

  function DecodeTile(base: Baseline, surface: U16, body: seq<Byte>, first: bool, t: Tables): Outcome
    requires forall k :: k in base ==> base[k].Valid()
  {
    match ReadTile(body, first)
    case None => Outcome(base, None, false)
    case Some(b) =>
      match BitPositions(t, b.index, b.quality)
      case None => Outcome(base, None, false)
      case Some(bits) =>
        if !ShiftsExist(bits) then Outcome(base, None, false)
        else ApplyTile(base, Key(surface, b.x, b.y), b, bits, t.extrapolate)
  }

  // ---------- TILE_UPGRADE ----------

  datatype Streams = Streams(srl: seq<Byte>, raw: seq<Byte>)

  datatype UpgradeBlock = UpgradeBlock(index: Three<Byte>, x: U16, y: U16, quality: Byte, streams: Three<Streams>)

  const UPGRADE_HEADER := 20

  /** The six lengths must account for every byte of the block. */
  function ReadUpgrade(body: seq<Byte>): Option<UpgradeBlock> {
    if |body| < UPGRADE_HEADER then None
    else
      var e1 := UPGRADE_HEADER + Field16(body, 8);
      var e2 := e1 + Field16(body, 10);
      var e3 := e2 + Field16(body, 12);
      var e4 := e3 + Field16(body, 14);
      var e5 := e4 + Field16(body, 16);
      var e6 := e5 + Field16(body, 18);
      if e6 != |body| then None
      else
        Some(UpgradeBlock(Three(body[0], body[1], body[2]), Field16(body, 3), Field16(body, 5), body[7],
                          Three(Streams(body[UPGRADE_HEADER..e1], body[e1..e2]), Streams(body[e2..e3], body[e3..e4]),
                                Streams(body[e4..e5], body[e5..e6]))))
  }

  /** An upgrade of a component is refused if it would raise a position or leave none. */
  predicate MayUpgrade(p: Plane, bits: Quant) {
    CheckedSub(p.bits, bits).Some? && Sub1(bits).Some?
  }

  function UpgradedPlane(p: Plane, s: Streams, bits: Quant, extrapolate: bool): (r: Plane)
    requires p.Valid() && MayUpgrade(p, bits)
    ensures r.Valid() && r.bits == bits
  {
    Upgraded(p, s.srl, s.raw, bits, Sub1(bits).value, CheckedSub(p.bits, bits).value, extrapolate)
  }

  /** All three components are checked before the first one is touched. */
  predicate MayUpgradeAll(s: TileState, bits: Three<Quant>) {
    MayUpgrade(s.y, bits.y) && MayUpgrade(s.cb, bits.cb) && MayUpgrade(s.cr, bits.cr)
  }

  function UpgradedState(s: TileState, u: UpgradeBlock, bits: Three<Quant>, extrapolate: bool): (r: TileState)
    requires s.Valid() && MayUpgradeAll(s, bits)
    ensures r.Valid()
  {
    TileState(UpgradedPlane(s.y, u.streams.y, bits.y, extrapolate), UpgradedPlane(s.cb, u.streams.cb, bits.cb, extrapolate),
              UpgradedPlane(s.cr, u.streams.cr, bits.cr, extrapolate))
  }

  function DecodeUpgrade(base: Baseline, surface: U16, body: seq<Byte>, t: Tables): Outcome
    requires forall k :: k in base ==> base[k].Valid()
  {
    match ReadUpgrade(body)
    case None => Outcome(base, None, false)
    case Some(u) =>
      match BitPositions(t, u.index, u.quality)
      case None => Outcome(base, None, false)
      case Some(bits) =>
        var key := Key(surface, u.x, u.y);
        if key !in base then Outcome(base, None, true)
        else if !MayUpgradeAll(base[key], bits) then Outcome(base, None, false)
        else Stored(base, key, UpgradedState(base[key], u, bits, t.extrapolate), t.extrapolate)
  }

  // ---------- What every block keeps ----------

  /** The own entry of the block that was decoded, if it produced a picture. */
  ghost predicate OnlyOwnEntry(base: Baseline, surface: U16, r: Outcome, extrapolate: bool) {
    && (r.pushed.None? ==> r.base == base)
    && (r.pushed.Some? ==>
          var key := Key(surface, r.pushed.value.x, r.pushed.value.y);
          && key in r.base && r.base == base[key := r.base[key]] && r.base[key].Valid()
          && r.pushed.value.pixels == Render(r.base[key], extrapolate))
    && (!r.ok ==> r.pushed.None?)
  }

  lemma TileIsAtomic(base: Baseline, surface: U16, body: seq<Byte>, first: bool, t: Tables)
    requires AllValid(base)
    ensures OnlyOwnEntry(base, surface, DecodeTile(base, surface, body, first, t), t.extrapolate)
  {
    hide Render, FirstState, DifferedState, ReadTile, BitPositions;
  }

  /** An upgrade is all or nothing: it changes only its own entry, and only if all three components could be refined. */
  lemma UpgradeIsAtomic(base: Baseline, surface: U16, body: seq<Byte>, t: Tables)
    requires AllValid(base)
    ensures OnlyOwnEntry(base, surface, DecodeUpgrade(base, surface, body, t), t.extrapolate)
  {
    hide Render, UpgradedState, ReadUpgrade, BitPositions, MayUpgradeAll;
  }

  ghost predicate NotRaised(before: Quant, after: Quant) {
    forall i :: 0 <= i < 10 ==> 1 <= after[i] <= before[i]
  }

  /** An upgrade that is applied raises no subband's bit position. */
  lemma UpgradeNeverRaises(base: Baseline, surface: U16, body: seq<Byte>, t: Tables)
    requires AllValid(base) && DecodeUpgrade(base, surface, body, t).pushed.Some?
    ensures var r := DecodeUpgrade(base, surface, body, t);
            var key := Key(surface, r.pushed.value.x, r.pushed.value.y);
            && key in base && key in r.base
            && NotRaised(base[key].y.bits, r.base[key].y.bits) && NotRaised(base[key].cb.bits, r.base[key].cb.bits)
            && NotRaised(base[key].cr.bits, r.base[key].cr.bits)
  {
    hide Render, ReadUpgrade, BitPositions, Upgraded;
  }

  /** A well-formed upgrade of a stored tile is taken exactly when it raises no position of any component and leaves none at zero. */
  lemma UpgradeIsTaken(base: Baseline, surface: U16, body: seq<Byte>, t: Tables, u: UpgradeBlock, bits: Three<Quant>)
    requires AllValid(base) && ReadUpgrade(body) == Some(u) && BitPositions(t, u.index, u.quality) == Some(bits)
    requires Key(surface, u.x, u.y) in base
    ensures var r, s := DecodeUpgrade(base, surface, body, t), base[Key(surface, u.x, u.y)];
            && (r.ok <==> NotRaised(s.y.bits, bits.y) && NotRaised(s.cb.bits, bits.cb) && NotRaised(s.cr.bits, bits.cr))
            && (r.ok <==> r.pushed.Some?) && (!r.ok ==> r.base == base)
  {
    hide Render, ReadUpgrade, BitPositions, UpgradedState, MayUpgradeAll;
    var s := base[Key(surface, u.x, u.y)];
    MayUpgradeIs(s, bits);
  }

  lemma MayUpgradeIs(s: TileState, bits: Three<Quant>)
    ensures MayUpgradeAll(s, bits) <==> NotRaised(s.y.bits, bits.y) && NotRaised(s.cb.bits, bits.cb) && NotRaised(s.cr.bits, bits.cr)
  {
  }
}
