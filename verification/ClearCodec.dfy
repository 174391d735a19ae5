/** A ClearCodec message (section 2.2.4.1 of MS-RDPEGFX): header, glyph cache, and three layers on one tile. */
module ClearCodec {
  import opened Machine
  import opened Grid
  import opened Bytes
  import opened VBars
  import opened VBarLockstep
  import opened ClearLayers

  const GLYPH_INDEX := 0x01
  const GLYPH_HIT := 0x02
  const CACHE_RESET := 0x04
  const GLYPH_CACHE_SIZE := 4000

  /** Bit `mask`, a power of two, of a flags byte. */
  predicate Has(flags: Byte, mask: nat)
    requires mask > 0
  {
    flags / mask % 2 == 1
  }

  datatype State = State(seqNumber: Option<Byte>, glyphs: seq<Option<Tile>>, caches: Caches) {
    predicate Valid() {
      |glyphs| == GLYPH_CACHE_SIZE && caches.Valid()
    }
  }

  function Fresh(): (s: State)
    ensures s.Valid()
  {
    State(None, seq(GLYPH_CACHE_SIZE, i => None), Caches(seq(VBAR_SIZE, i => None), seq(SHORT_VBAR_SIZE, i => None), 0, 0))
  }

  lemma FreshInStep()
    ensures Lockstep(Fresh().caches, Sender([], []))
  {
    StartsInStep(Fresh().caches);
  }

  /** The state behind a message, and the pixels to draw; None after an error. */
  datatype Drawing = Drawing(state: State, pixels: Option<Tile>)

  function BlackTile(w: nat, h: nat): (t: Tile)
    ensures |t| == At(0, w, h, 0)
  {
    seq(At(0, w, h, 0), i => BLACK)
  }

  // ---------- Decoding ----------

  function SubcodecLayer(data: seq<Byte>, p: nat, n: nat, tile: Tile, w: nat, h: nat): (r: Option<Tile>)
    requires |tile| == At(0, w, h, 0)
    ensures r.Some? ==> |r.value| == |tile|
  {
    if n == 0 then Some(tile)
    else
      match ReadBytes(data, p, n)
      case None => None
      case Some((segment, _)) => DecodeSubcodecs(segment, 0, tile, w, h)
  }

  /** Columns cached by the bands layer stay cached when a later layer fails. */
  function BandsLayer(data: seq<Byte>, p: nat, n: nat, c: Caches, tile: Tile, w: nat, h: nat): (r: Progress)
    requires c.Valid() && |tile| == At(0, w, h, 0)
    ensures r.caches.Valid() && |r.tile| == |tile|
  {
    if n == 0 then Progress(tile, c, Some(p))
    else
      match ReadBytes(data, p, n)
      case None => Progress(tile, c, None)
      case Some((segment, next)) =>
        var bands := DecodeBands(segment, 0, c, tile, w, h);
        bands.(next := if bands.next.None? then None else Some(next))
  }

  function ResidualLayer(data: seq<Byte>, p: nat, n: nat, tile: Tile): (r: Option<(Tile, nat)>)
    ensures r.Some? ==> |r.value.0| == |tile|
  {
    if n == 0 then Some((tile, p))
    else
      match ReadBytes(data, p, n)
      case None => None
      case Some((segment, next)) =>
        match DecodeResidual(segment, 0, 0, tile)
        case None => None
        case Some(tile') => Some((tile', next))
  }

  function DecodeLayers(data: seq<Byte>, p: nat, sizes: (nat, nat, nat), c: Caches, w: nat, h: nat): (r: (Caches, Option<Tile>))
    requires c.Valid()
    ensures r.0.Valid() && (r.1.Some? ==> |r.1.value| == At(0, w, h, 0))
  {
    match ResidualLayer(data, p, sizes.0, BlackTile(w, h))
    case None => (c, None)
    case Some((tile, p1)) =>
      var bands := BandsLayer(data, p1, sizes.1, c, tile, w, h);
      if bands.next.None? then (bands.caches, None)
      else (bands.caches, SubcodecLayer(data, bands.next.value, sizes.2, bands.tile, w, h))
  }

  function ReadSizes(data: seq<Byte>, p: nat): (r: Option<((nat, nat, nat), nat)>)
    ensures r.Some? ==> p < r.value.1 <= |data|
  {
    match ReadU32(data, p)
    case None => None
    case Some((residual, p1)) =>
      match ReadU32(data, p1)
      case None => None
      case Some((bands, p2)) =>
        match ReadU32(data, p2)
        case None => None
        case Some((subcodecs, p3)) => Some(((residual, bands, subcodecs), p3))
  }

  /** Composes a tile and keeps it as a glyph if an index was given. */
  function Compose(data: seq<Byte>, p: nat, glyph: Option<nat>, s: State, w: nat, h: nat): (r: Drawing)
    requires s.Valid() && (glyph.Some? ==> glyph.value < GLYPH_CACHE_SIZE)
    ensures r.state.Valid() && (r.pixels.Some? ==> |r.pixels.value| == At(0, w, h, 0))
  {
    match ReadSizes(data, p)
    case None => Drawing(s, None)
    case Some((sizes, q)) =>
      var (caches, tile) := DecodeLayers(data, q, sizes, s.caches, w, h);
      var s' := s.(caches := caches);
      if glyph.Some? && tile.Some? then Drawing(s'.(glyphs := s.glyphs[glyph.value := Some(tile.value)]), tile)
      else Drawing(s', tile)
  }

  /** A glyph is stored as its pixels alone and may be drawn in another shape that needs no more of them. */
  function RecallGlyph(index: nat, s: State, w: nat, h: nat): (r: Drawing)
    requires s.Valid() && index < GLYPH_CACHE_SIZE
    ensures r.state == s && (r.pixels.Some? ==> |r.pixels.value| >= At(0, w, h, 0))
  {
    match s.glyphs[index]
    case None => Drawing(s, None)
    case Some(pixels) => if |pixels| < At(0, w, h, 0) then Drawing(s, None) else Drawing(s, Some(pixels))
  }

  function DecodeBody(data: seq<Byte>, p: nat, flags: Byte, s: State, w: nat, h: nat): (r: Drawing)
    requires s.Valid()
    ensures r.state.Valid() && (r.pixels.Some? ==> |r.pixels.value| >= At(0, w, h, 0))
  {
    if !Has(flags, GLYPH_INDEX) then Compose(data, p, None, s, w, h)
    else
      match ReadU16(data, p)
      case None => Drawing(s, None)
      case Some((index, q)) =>
        if index >= GLYPH_CACHE_SIZE then Drawing(s, None)
        else if Has(flags, GLYPH_HIT) then RecallGlyph(index, s, w, h)
        else Compose(data, q, Some(index), s, w, h)
  }

  /** The sequence number a message must carry. */
  predicate InSequence(s: State, seqNumber: Byte) {
    s.seqNumber.None? || seqNumber == (s.seqNumber.value as int + 1) % 0x100
  }

  function Accepted(s: State, flags: Byte, seqNumber: Byte): (r: State)
    ensures s.Valid() ==> r.Valid()
  {
    s.(seqNumber := Some(seqNumber), caches := if Has(flags, CACHE_RESET) then Restart(s.caches) else s.caches)
  }

  function Decode(data: seq<Byte>, s: State, w: nat, h: nat): (r: Drawing)
    requires s.Valid()
    ensures r.state.Valid() && (r.pixels.Some? ==> |r.pixels.value| >= At(0, w, h, 0))
  {
    match ReadU8(data, 0)
    case None => Drawing(s, None)
    case Some((flags, p)) =>
      match ReadU8(data, p)
      case None => Drawing(s, None)
      case Some((seqNumber, q)) =>
        if !InSequence(s, seqNumber) then Drawing(s, None)
        else DecodeBody(data, q, flags, Accepted(s, flags, seqNumber), w, h)
  }

  // ---------- The sender ----------

  /** What a sender composes a tile from; layers that would be empty are not sent. */
  datatype Draw = Draw(restart: bool, glyph: Option<nat>, residual: Option<Tile>, bands: seq<Band>, subrects: seq<Subrect>)

  function Started(d: Draw, s: Sender): Sender {
    if d.restart then Sender(s.bars + [Restarted], s.shorts + [Restarted]) else s
  }

  function ResidualBytes(d: Draw): seq<Byte> {
    if d.residual.None? then [] else EncodeResidual(d.residual.value)
  }

  ghost predicate Sendable(d: Draw, s: Sender, w: nat, h: nat) {
    && (d.glyph.Some? ==> d.glyph.value < GLYPH_CACHE_SIZE)
    && (d.residual.Some? ==> |d.residual.value| == At(0, w, h, 0))
    && BandsSendable(d.bands, Started(d, s)) && SubrectsSendable(d.subrects)
    && |ResidualBytes(d)| < 0x1_0000_0000 && |EncodeBands(d.bands, Started(d, s))| < 0x1_0000_0000
    && |EncodeSubrects(d.subrects)| < 0x1_0000_0000
  }

  function Flags(d: Draw): Byte {
    (if d.glyph.Some? then GLYPH_INDEX else 0) + (if d.restart then CACHE_RESET else 0)
  }

  function LayerBytes(d: Draw, s: Sender, w: nat, h: nat): seq<Byte>
    requires Sendable(d, s, w, h)
  {
    ResidualBytes(d) + (EncodeBands(d.bands, Started(d, s)) + EncodeSubrects(d.subrects))
  }

  function SizeBytes(d: Draw, s: Sender, w: nat, h: nat): seq<Byte>
    requires Sendable(d, s, w, h)
  {
    Le32Bytes(|ResidualBytes(d)|) + (Le32Bytes(|EncodeBands(d.bands, Started(d, s))|) + Le32Bytes(|EncodeSubrects(d.subrects)|))
  }

  function EncodeDraw(d: Draw, s: Sender, seqNumber: Byte, w: nat, h: nat): seq<Byte>
    requires Sendable(d, s, w, h)
  {
    [Flags(d)] + ([seqNumber] + ((if d.glyph.Some? then Le16Bytes(d.glyph.value) else []) + (SizeBytes(d, s, w, h) + LayerBytes(d, s, w, h))))
  }

  /** Residual first, bands over it, rectangles on top. */
  function Intended(d: Draw, s: Sender, w: nat, h: nat): (t: Tile)
    requires Sendable(d, s, w, h)
    ensures |t| == At(0, w, h, 0)
  {
    var base := if d.residual.Some? then d.residual.value else BlackTile(w, h);
    PaintSubrects(PaintBands(d.bands, Started(d, s), base, w, h), w, h, d.subrects)
  }

  // ---------- The receiver draws what the sender means ----------

  lemma ResidualLayerBack(data: seq<Byte>, p: nat, d: Draw, w: nat, h: nat, rest: seq<Byte>)
    requires d.residual.Some? ==> |d.residual.value| == At(0, w, h, 0)
    requires p <= |data| && data[p..] == ResidualBytes(d) + rest
    ensures ResidualLayer(data, p, |ResidualBytes(d)|, BlackTile(w, h))
         == Some((if d.residual.Some? then d.residual.value else BlackTile(w, h), p + |ResidualBytes(d)|))
    ensures p + |ResidualBytes(d)| <= |data| && data[p + |ResidualBytes(d)|..] == rest
  {
    hide EncodeResidual, DecodeResidual, ReadBytes, BlackTile, At;
    var code := ResidualBytes(d);
    BytesBack(data, p, code, rest);
    if d.residual.Some? {
      ResidualRoundTrip(BlackTile(w, h), d.residual.value);
      if code == [] {
        EmptyResidual(d.residual.value);
        assert BlackTile(w, h) == d.residual.value;
      }
    }
  }

  lemma EmptyResidual(pixels: Tile)
    requires EncodeResidual(pixels) == []
    ensures pixels == []
  {
  }

  lemma BandsLayerBack(data: seq<Byte>, p: nat, bs: seq<Band>, s: Sender, c: Caches, tile: Tile, w: nat, h: nat, rest: seq<Byte>)
    returns (c': Caches)
    requires c.Valid() && Lockstep(c, s) && |tile| == At(0, w, h, 0) && BandsSendable(bs, s)
    requires p <= |data| && data[p..] == EncodeBands(bs, s) + rest
    ensures var end := p + |EncodeBands(bs, s)|;
            && BandsLayer(data, p, |EncodeBands(bs, s)|, c, tile, w, h) == Progress(PaintBands(bs, s, tile, w, h), c', Some(end))
            && end <= |data| && data[end..] == rest
    ensures Lockstep(c', AfterBands(bs, s)) && c'.Valid()
  {
    hide EncodeBands, DecodeBands, PaintBands, AfterBands, BandsSendable, ReadBytes, Lockstep, At;
    var code := EncodeBands(bs, s);
    BytesBack(data, p, code, rest);
    assert code[0..] == code;
    var r := BandsInStep(code, 0, bs, s, c, tile, w, h);
    c' := r.caches;
    if code == [] {
      NothingInBands(code, c, tile, w, h);
    }
  }

  lemma NothingInBands(data: seq<Byte>, c: Caches, tile: Tile, w: nat, h: nat)
    requires data == [] && c.Valid() && |tile| == At(0, w, h, 0)
    ensures DecodeBands(data, 0, c, tile, w, h) == Progress(tile, c, Some(0))
  {
  }

  lemma SubcodecLayerBack(data: seq<Byte>, p: nat, ss: seq<Subrect>, tile: Tile, w: nat, h: nat)
    requires |tile| == At(0, w, h, 0) && SubrectsSendable(ss) && p <= |data| && data[p..] == EncodeSubrects(ss)
    ensures SubcodecLayer(data, p, |EncodeSubrects(ss)|, tile, w, h) == Some(PaintSubrects(tile, w, h, ss))
  {
    hide EncodeSubrects, DecodeSubcodecs, PaintSubrects, SubrectsSendable, ReadBytes, At;
    var code := EncodeSubrects(ss);
    assert code + [] == code;
    BytesBack(data, p, code, []);
    assert code[0..] == code;
    SubrectsFrom(code, 0, tile, w, h, ss);
    if code == [] {
      NothingInSubcodecs(code, tile, w, h);
    }
  }

  lemma NothingInSubcodecs(data: seq<Byte>, tile: Tile, w: nat, h: nat)
    requires data == [] && |tile| == At(0, w, h, 0)
    ensures DecodeSubcodecs(data, 0, tile, w, h) == Some(tile)
  {
  }

  lemma LayersBack(data: seq<Byte>, p: nat, d: Draw, s: Sender, c: Caches, w: nat, h: nat)
    returns (c': Caches)
    requires Sendable(d, s, w, h) && c.Valid() && Lockstep(c, Started(d, s))
    requires p <= |data| && data[p..] == LayerBytes(d, s, w, h)
    ensures DecodeLayers(data, p, (|ResidualBytes(d)|, |EncodeBands(d.bands, Started(d, s))|, |EncodeSubrects(d.subrects)|), c, w, h)
         == (c', Some(Intended(d, s, w, h)))
    ensures Lockstep(c', AfterBands(d.bands, Started(d, s))) && c'.Valid()
  {
    hide ResidualBytes, EncodeBands, EncodeSubrects, ResidualLayer, BandsLayer, SubcodecLayer, PaintBands, PaintSubrects, Started;
    hide BlackTile, AfterBands, BandsSendable, SubrectsSendable, Lockstep, At;
    var a, b, e := ResidualBytes(d), EncodeBands(d.bands, Started(d, s)), EncodeSubrects(d.subrects);
    var base := if d.residual.Some? then d.residual.value else BlackTile(w, h);
    ResidualLayerBack(data, p, d, w, h, b + e);
    c' := BandsLayerBack(data, p + |a|, d.bands, Started(d, s), c, base, w, h, e);
    SubcodecLayerBack(data, p + |a| + |b|, d.subrects, PaintBands(d.bands, Started(d, s), base, w, h), w, h);
  }

  lemma SizesBack(data: seq<Byte>, p: nat, a: U32, b: U32, e: U32, rest: seq<Byte>)
    requires p <= |data| && data[p..] == Le32Bytes(a) + (Le32Bytes(b) + Le32Bytes(e)) + rest
    ensures ReadSizes(data, p) == Some(((a as nat, b as nat, e as nat), p + 12)) && p + 12 <= |data| && data[p + 12..] == rest
  {
    hide Le32Bytes, ReadU32;
    assert data[p..] == Le32Bytes(a) + (Le32Bytes(b) + (Le32Bytes(e) + rest));
    U32Back(data, p, a, Le32Bytes(b) + (Le32Bytes(e) + rest));
    U32Back(data, p + 4, b, Le32Bytes(e) + rest);
    U32Back(data, p + 8, e, rest);
  }

  lemma ComposeBack(data: seq<Byte>, p: nat, d: Draw, s: Sender, state: State, w: nat, h: nat)
    returns (c': Caches)
    requires Sendable(d, s, w, h) && state.Valid() && Lockstep(state.caches, Started(d, s))
    requires p <= |data| && data[p..] == SizeBytes(d, s, w, h) + LayerBytes(d, s, w, h)
    ensures var tile := Intended(d, s, w, h);
            Compose(data, p, d.glyph, state, w, h) ==
            Drawing(state.(caches := c', glyphs := if d.glyph.Some? then state.glyphs[d.glyph.value := Some(tile)] else state.glyphs), Some(tile))
    ensures Lockstep(c', AfterBands(d.bands, Started(d, s))) && c'.Valid()
  {
    hide ResidualBytes, EncodeBands, EncodeSubrects, DecodeLayers, ReadSizes, Intended, Started, LayerBytes, Le32Bytes;
    hide AfterBands, BandsSendable, SubrectsSendable, Lockstep, At;
    SizesBack(data, p, |ResidualBytes(d)|, |EncodeBands(d.bands, Started(d, s))|, |EncodeSubrects(d.subrects)|, LayerBytes(d, s, w, h));
    c' := LayersBack(data, p + 12, d, s, state.caches, w, h);
  }

  lemma FlagsBack(d: Draw)
    ensures Has(Flags(d), GLYPH_INDEX) <==> d.glyph.Some?
    ensures Has(Flags(d), CACHE_RESET) <==> d.restart
    ensures !Has(Flags(d), GLYPH_HIT)
  {
  }

  lemma AcceptedInStep(d: Draw, s: Sender, state: State, seqNumber: Byte)
    requires state.Valid() && Lockstep(state.caches, s)
    ensures Lockstep(Accepted(state, Flags(d), seqNumber).caches, Started(d, s))
  {
    hide Agrees, Has, Flags;
    FlagsBack(d);
    if d.restart {
      RestartAgrees(state.caches.vbars, state.caches.cursor, s.bars, VBAR_SIZE);
      RestartAgrees(state.caches.shorts, state.caches.shortCursor, s.shorts, SHORT_VBAR_SIZE);
    }
  }

  /**
   A message in sequence draws exactly the tile the sender composed, stores it as the glyph it
   names, and leaves the column caches in step with the sender's.
   */
  lemma DrawRoundTrip(d: Draw, s: Sender, state: State, seqNumber: Byte, w: nat, h: nat)
    returns (c': Caches)
    requires Sendable(d, s, w, h) && state.Valid() && Lockstep(state.caches, s) && InSequence(state, seqNumber)
    ensures var tile := Intended(d, s, w, h);
            Decode(EncodeDraw(d, s, seqNumber, w, h), state, w, h) ==
            Drawing(State(Some(seqNumber), if d.glyph.Some? then state.glyphs[d.glyph.value := Some(tile)] else state.glyphs, c'), Some(tile))
    ensures Lockstep(c', AfterBands(d.bands, Started(d, s))) && c'.Valid()
  {
    hide ReadU8, ReadU16, Le16Bytes, Intended, Started, SizeBytes, LayerBytes, Compose, Has, Flags;
    hide AfterBands, BandsSendable, SubrectsSendable, Lockstep, At;
    var data, flags := EncodeDraw(d, s, seqNumber, w, h), Flags(d);
    var body := SizeBytes(d, s, w, h) + LayerBytes(d, s, w, h);
    var index := if d.glyph.Some? then Le16Bytes(d.glyph.value) else [];
    FlagsBack(d);
    assert data[0..] == data;
    U8Back(data, 0, flags, [seqNumber] + (index + body));
    U8Back(data, 1, seqNumber, index + body);
    AcceptedInStep(d, s, state, seqNumber);
    if d.glyph.Some? {
      U16Back(data, 2, d.glyph.value, body);
      c' := ComposeBack(data, 4, d, s, Accepted(state, flags, seqNumber), w, h);
    } else {
      assert index + body == body;
      c' := ComposeBack(data, 2, d, s, Accepted(state, flags, seqNumber), w, h);
    }
  }

  /** A message out of sequence changes nothing at all. */
  lemma GapChangesNothing(data: seq<Byte>, s: State, w: nat, h: nat)
    requires s.Valid() && |data| >= 2 && !InSequence(s, data[1])
    ensures Decode(data, s, w, h) == Drawing(s, None)
  {
  }
}
