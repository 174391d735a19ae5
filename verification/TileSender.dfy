/** The bytes of tile blocks (sections 2.2.4.2.1.5.3 to 2.2.4.2.1.5.5 of MS-RDPEGFX) and a sender of whole tiles. */
module TileSender {
  import opened Machine
  import opened Pixels
  import opened Canvas
  import opened Quants
  import opened Planes
  import opened BandLayout
  import opened TileBlocks
  import opened PlaneSender
  import opened Differences

  // ---------- Fields ----------

  lemma Field16Back(data: seq<Byte>, at: nat, v: U16, rest: seq<Byte>)
    requires at <= |data| && data[at..] == Le16Bytes(v) + rest
    ensures at + 2 <= |data| && Field16(data, at) == v && data[at + 2..] == rest
  {
    hide Le16Bytes, Le16;
    var w := Le16Bytes(v);
    assert data[at] == data[at..][0] == w[0] && data[at + 1] == data[at..][1] == w[1];
    assert data[at + 2..] == data[at..][2..] == rest;
  }

  lemma ByteBack(data: seq<Byte>, at: nat, v: Byte, rest: seq<Byte>)
    requires at <= |data| && data[at..] == [v] + rest
    ensures at < |data| && data[at] == v && data[at + 1..] == rest
  {
    assert data[at] == data[at..][0];
    assert data[at + 1..] == data[at..][1..];
  }

  lemma SliceBack(data: seq<Byte>, at: nat, v: seq<Byte>, rest: seq<Byte>)
    requires at <= |data| && data[at..] == v + rest
    ensures at + |v| <= |data| && data[at..at + |v|] == v && data[at + |v|..] == rest
  {
    assert data[at..at + |v|] == data[at..][..|v|];
    assert data[at + |v|..] == data[at..][|v|..];
  }

  // ---------- TILE_SIMPLE and TILE_FIRST ----------

  predicate TileFits(b: TileBlock, first: bool) {
    && |b.data.y| < 0x1_0000 && |b.data.cb| < 0x1_0000 && |b.data.cr| < 0x1_0000
    && (!first ==> b.quality == FULL_QUALITY)
  }

  /** The last of the four lengths is that of data the client does not look at. */
  function TileBytes(b: TileBlock, first: bool): seq<Byte>
    requires TileFits(b, first)
  {
    [b.index.y, b.index.cb, b.index.cr] + (Le16Bytes(b.x) + (Le16Bytes(b.y) + ([if b.difference then 1 else 0]
    + ((if first then [b.quality] else []) + (Le16Bytes(|b.data.y|) + (Le16Bytes(|b.data.cb|) + (Le16Bytes(|b.data.cr|)
    + (Le16Bytes(0) + (b.data.y + (b.data.cb + b.data.cr))))))))))
  }

  lemma TileHead(b: TileBlock, first: bool)
    requires TileFits(b, first)
    ensures var body, h := TileBytes(b, first), TileHeader(first);
            && |body| >= h && body[0] == b.index.y && body[1] == b.index.cb && body[2] == b.index.cr
            && Field16(body, 3) == b.x && Field16(body, 5) == b.y && body[7] == (if b.difference then 1 else 0)
            && (first ==> body[8] == b.quality)
            && body[h - 8..] == Le16Bytes(|b.data.y|) + (Le16Bytes(|b.data.cb|) + (Le16Bytes(|b.data.cr|)
                                + (Le16Bytes(0) + (b.data.y + (b.data.cb + b.data.cr)))))
  {
    hide Le16Bytes, Field16;
    var body := TileBytes(b, first);
    var rest := Le16Bytes(|b.data.y|) + (Le16Bytes(|b.data.cb|) + (Le16Bytes(|b.data.cr|) + (Le16Bytes(0) + (b.data.y + (b.data.cb + b.data.cr)))));
    var quality := if first then [b.quality] else [];
    var flags := [if b.difference then 1 else 0];
    SliceBack(body, 0, [b.index.y, b.index.cb, b.index.cr], Le16Bytes(b.x) + (Le16Bytes(b.y) + (flags + (quality + rest))));
    Field16Back(body, 3, b.x, Le16Bytes(b.y) + (flags + (quality + rest)));
    Field16Back(body, 5, b.y, flags + (quality + rest));
    ByteBack(body, 7, flags[0], quality + rest);
    SliceBack(body, 8, quality, rest);
    if first {
      assert body[8] == body[8..9][0];
    }
  }

  lemma TileTail(body: seq<Byte>, h: nat, data: Three<seq<Byte>>)
    requires |data.y| < 0x1_0000 && |data.cb| < 0x1_0000 && |data.cr| < 0x1_0000
    requires 8 <= h <= |body|
    requires body[h - 8..] == Le16Bytes(|data.y|) + (Le16Bytes(|data.cb|) + (Le16Bytes(|data.cr|) + (Le16Bytes(0) + (data.y + (data.cb + data.cr)))))
    ensures Field16(body, h - 8) == |data.y| && Field16(body, h - 6) == |data.cb| && Field16(body, h - 4) == |data.cr| && Field16(body, h - 2) == 0
    ensures var e1 := h + |data.y|;
            var e2 := e1 + |data.cb|;
            var e3 := e2 + |data.cr|;
            e3 == |body| && body[h..e1] == data.y && body[e1..e2] == data.cb && body[e2..e3] == data.cr
  {
    hide Le16Bytes, Field16;
    var all := data.y + (data.cb + data.cr);
    Field16Back(body, h - 8, |data.y|, Le16Bytes(|data.cb|) + (Le16Bytes(|data.cr|) + (Le16Bytes(0) + all)));
    Field16Back(body, h - 6, |data.cb|, Le16Bytes(|data.cr|) + (Le16Bytes(0) + all));
    Field16Back(body, h - 4, |data.cr|, Le16Bytes(0) + all);
    Field16Back(body, h - 2, 0, all);
    SliceBack(body, h, data.y, data.cb + data.cr);
    SliceBack(body, h + |data.y|, data.cb, data.cr);
    assert data.cr + [] == data.cr;
    SliceBack(body, h + |data.y| + |data.cb|, data.cr, []);
  }

  /** A tile block is read back. */
  lemma TileBack(b: TileBlock, first: bool)
    requires TileFits(b, first)
    ensures ReadTile(TileBytes(b, first), first) == Some(b)
  {
    hide Le16Bytes, Field16, TileBytes;
    TileHead(b, first);
    TileTail(TileBytes(b, first), TileHeader(first), b.data);
  }

  // ---------- TILE_UPGRADE ----------

  predicate UpgradeFits(u: UpgradeBlock) {
    && |u.streams.y.srl| < 0x1_0000 && |u.streams.y.raw| < 0x1_0000 && |u.streams.cb.srl| < 0x1_0000
    && |u.streams.cb.raw| < 0x1_0000 && |u.streams.cr.srl| < 0x1_0000 && |u.streams.cr.raw| < 0x1_0000
  }

  function LengthBytes(s: Three<Streams>, rest: seq<Byte>): seq<Byte>
    requires |s.y.srl| < 0x1_0000 && |s.y.raw| < 0x1_0000 && |s.cb.srl| < 0x1_0000
    requires |s.cb.raw| < 0x1_0000 && |s.cr.srl| < 0x1_0000 && |s.cr.raw| < 0x1_0000
  {
    Le16Bytes(|s.y.srl|) + (Le16Bytes(|s.y.raw|) + (Le16Bytes(|s.cb.srl|) + (Le16Bytes(|s.cb.raw|)
    + (Le16Bytes(|s.cr.srl|) + (Le16Bytes(|s.cr.raw|) + rest)))))
  }

  function StreamBytes(s: Three<Streams>): seq<Byte> {
    s.y.srl + (s.y.raw + (s.cb.srl + (s.cb.raw + (s.cr.srl + s.cr.raw))))
  }

  function UpgradeBlockBytes(u: UpgradeBlock): seq<Byte>
    requires UpgradeFits(u)
  {
    [u.index.y, u.index.cb, u.index.cr] + (Le16Bytes(u.x) + (Le16Bytes(u.y) + ([u.quality] + LengthBytes(u.streams, StreamBytes(u.streams)))))
  }

  lemma UpgradeHead(u: UpgradeBlock)
    requires UpgradeFits(u)
    ensures var body := UpgradeBlockBytes(u);
            && |body| >= 8 && body[0] == u.index.y && body[1] == u.index.cb && body[2] == u.index.cr
            && Field16(body, 3) == u.x && Field16(body, 5) == u.y && body[7] == u.quality
            && body[8..] == LengthBytes(u.streams, StreamBytes(u.streams))
  {
    hide Le16Bytes, Field16, LengthBytes, StreamBytes;
    var body, rest := UpgradeBlockBytes(u), LengthBytes(u.streams, StreamBytes(u.streams));
    SliceBack(body, 0, [u.index.y, u.index.cb, u.index.cr], Le16Bytes(u.x) + (Le16Bytes(u.y) + ([u.quality] + rest)));
    Field16Back(body, 3, u.x, Le16Bytes(u.y) + ([u.quality] + rest));
    Field16Back(body, 5, u.y, [u.quality] + rest);
    ByteBack(body, 7, u.quality, rest);
  }

  lemma LengthsBack(body: seq<Byte>, u: UpgradeBlock, rest: seq<Byte>)
    requires UpgradeFits(u) && |body| >= 8 && body[8..] == LengthBytes(u.streams, rest)
    ensures var s := u.streams;
            && |body| >= 20 && Field16(body, 8) == |s.y.srl| && Field16(body, 10) == |s.y.raw| && Field16(body, 12) == |s.cb.srl|
            && Field16(body, 14) == |s.cb.raw| && Field16(body, 16) == |s.cr.srl| && Field16(body, 18) == |s.cr.raw|
            && body[20..] == rest
  {
    hide Le16Bytes, Field16;
    var s := u.streams;
    var r5 := Le16Bytes(|s.cr.raw|) + rest;
    var r4 := Le16Bytes(|s.cr.srl|) + r5;
    var r3 := Le16Bytes(|s.cb.raw|) + r4;
    var r2 := Le16Bytes(|s.cb.srl|) + r3;
    Field16Back(body, 8, |s.y.srl|, Le16Bytes(|s.y.raw|) + r2);
    Field16Back(body, 10, |s.y.raw|, r2);
    Field16Back(body, 12, |s.cb.srl|, r3);
    Field16Back(body, 14, |s.cb.raw|, r4);
    Field16Back(body, 16, |s.cr.srl|, r5);
    Field16Back(body, 18, |s.cr.raw|, rest);
  }

  lemma StreamsBack(body: seq<Byte>, s: Three<Streams>)
    requires |body| >= 20 && body[20..] == StreamBytes(s)
    ensures var e1 := 20 + |s.y.srl|;
            var e2 := e1 + |s.y.raw|;
            var e3 := e2 + |s.cb.srl|;
            var e4 := e3 + |s.cb.raw|;
            var e5 := e4 + |s.cr.srl|;
            var e6 := e5 + |s.cr.raw|;
            && e6 == |body| && body[20..e1] == s.y.srl && body[e1..e2] == s.y.raw && body[e2..e3] == s.cb.srl
            && body[e3..e4] == s.cb.raw && body[e4..e5] == s.cr.srl && body[e5..e6] == s.cr.raw
  {
    var cr := s.cr.srl + (s.cr.raw + []);
    var cb := s.cb.srl + (s.cb.raw + cr);
    assert s.cr.raw + [] == s.cr.raw;
    assert body[20..] == s.y.srl + (s.y.raw + cb);
    PairBack(body, 20, s.y, cb);
    PairBack(body, 20 + |s.y.srl| + |s.y.raw|, s.cb, cr);
    PairBack(body, 20 + |s.y.srl| + |s.y.raw| + |s.cb.srl| + |s.cb.raw|, s.cr, []);
  }

  lemma PairBack(body: seq<Byte>, at: nat, s: Streams, rest: seq<Byte>)
    requires at <= |body| && body[at..] == s.srl + (s.raw + rest)
    ensures var e1 := at + |s.srl|;
            var e2 := e1 + |s.raw|;
            e2 <= |body| && body[at..e1] == s.srl && body[e1..e2] == s.raw && body[e2..] == rest
  {
    SliceBack(body, at, s.srl, s.raw + rest);
    SliceBack(body, at + |s.srl|, s.raw, rest);
  }

  lemma UpgradeBack(u: UpgradeBlock)
    requires UpgradeFits(u)
    ensures ReadUpgrade(UpgradeBlockBytes(u)) == Some(u)
  {
    hide Le16Bytes, Field16, UpgradeBlockBytes, LengthBytes, StreamBytes;
    var body := UpgradeBlockBytes(u);
    UpgradeHead(u);
    LengthsBack(body, u, StreamBytes(u.streams));
    StreamsBack(body, u.streams);
  }

  // ---------- A sender's tile ----------

  /** The coefficients of a tile's three components. */
  type Source = Three<seq<int>>

  ghost predicate CodableTile(ts: Source) {
    Codable(ts.y) && Codable(ts.cb) && Codable(ts.cr)
  }

  ghost predicate PositiveTile(bits: Three<Quant>) {
    Positive(bits.y) && Positive(bits.cb) && Positive(bits.cr)
  }

  ghost predicate LowersTile(s: TileState, bits: Three<Quant>) {
    Lowers(s.y.bits, bits.y) && Lowers(s.cb.bits, bits.cb) && Lowers(s.cr.bits, bits.cr)
  }

  /** The tile state holds the sender's coefficients at its bit positions. */
  ghost predicate TileShows(s: TileState, ts: Source, extrapolate: bool) {
    Shows(s.y, ts.y, extrapolate) && Shows(s.cb, ts.cb, extrapolate) && Shows(s.cr, ts.cr, extrapolate)
  }

  function BitsOf(s: TileState): Three<Quant> {
    Three(s.y.bits, s.cb.bits, s.cr.bits)
  }

  /** What lies under a tile's own coefficients: all that was there before its last difference. */
  type Layer = Three<seq<I16>>

  predicate Sized(under: Layer) {
    |under.y| == |under.cb| == |under.cr| == COEFFICIENTS
  }

  function TileOver(under: Layer, s: TileState): (r: TileState)
    requires s.Valid() && Sized(under)
    ensures r.Valid() && BitsOf(r) == BitsOf(s)
  {
    TileState(Over(under.y, s.y), Over(under.cb, s.cb), Over(under.cr, s.cr))
  }

  /** The sender's coefficients, as far as the bit positions let them be known, added to what lies under them. */
  function CoefficientsAt(under: Layer, ts: Source, bits: Three<Quant>, extrapolate: bool): (r: Layer)
    requires Sized(under) && |ts.y| == |ts.cb| == |ts.cr| == COEFFICIENTS && Positive(bits.y) && Positive(bits.cb) && Positive(bits.cr)
    ensures Sized(r)
  {
    Three(Summed(Truncated(ts.y, bits.y, extrapolate), under.y), Summed(Truncated(ts.cb, bits.cb, extrapolate), under.cb),
          Summed(Truncated(ts.cr, bits.cr, extrapolate), under.cr))
  }

  function PictureOf(coefs: Layer, extrapolate: bool): (rows: Rows<Pixel>)
    ensures |rows| == TILE && Wide(rows, TILE)
  {
    Convert(Samples(coefs.y, extrapolate), Samples(coefs.cb, extrapolate), Samples(coefs.cr, extrapolate))
  }

  function CurrentsOf(s: TileState): Layer {
    Three(s.y.current, s.cb.current, s.cr.current)
  }

  lemma CurrentsAreCoefficients(under: Layer, s: TileState, ts: Source, extrapolate: bool)
    requires TileShows(s, ts, extrapolate) && Sized(under)
    ensures |ts.y| == |ts.cb| == |ts.cr| == COEFFICIENTS && PositiveTile(BitsOf(s)) && s.Valid()
    ensures CurrentsOf(TileOver(under, s)) == CoefficientsAt(under, ts, BitsOf(s), extrapolate)
  {
    hide Truncated, BandStart, ComponentOf, Summed;
    ShowsTruncated(s.y, ts.y, extrapolate);
    ShowsTruncated(s.cb, ts.cb, extrapolate);
    ShowsTruncated(s.cr, ts.cr, extrapolate);
  }

  lemma RenderIsPicture(s: TileState, extrapolate: bool)
    ensures Render(s, extrapolate) == PictureOf(CurrentsOf(s), extrapolate)
  {
    hide Samples, Convert;
  }

  // ---------- Difference tiles ----------

  function NoLayer(): (under: Layer)
    ensures Sized(under)
  {
    Three(Differences.Nothing(), Differences.Nothing(), Differences.Nothing())
  }

  lemma TileOverNothing(s: TileState)
    requires s.Valid()
    ensures TileOver(NoLayer(), s) == s
  {
    hide Over;
    OverNothing(s.y);
    OverNothing(s.cb);
    OverNothing(s.cr);
  }

  lemma DifferedTileIsOver(s: TileState, delta: TileState)
    requires s.Valid() && delta.Valid()
    ensures Sized(CurrentsOf(s)) && DifferedState(s, delta) == TileOver(CurrentsOf(s), delta)
  {
    hide Over, Differed;
    DifferedIsOver(s.y, delta.y);
    DifferedIsOver(s.cb, delta.cb);
    DifferedIsOver(s.cr, delta.cr);
  }

  /** An upgrade refines what lies uppermost. */
  lemma UpgradedTileOver(under: Layer, s: TileState, u: UpgradeBlock, bits: Three<Quant>, extrapolate: bool)
    requires s.Valid() && Sized(under) && MayUpgradeAll(s, bits)
    ensures MayUpgradeAll(TileOver(under, s), bits)
    ensures UpgradedState(TileOver(under, s), u, bits, extrapolate) == TileOver(under, UpgradedState(s, u, bits, extrapolate))
  {
    hide Upgraded, Over;
    UpgradedPlaneOver(under.y, s.y, u.streams.y, bits.y, extrapolate);
    UpgradedPlaneOver(under.cb, s.cb, u.streams.cb, bits.cb, extrapolate);
    UpgradedPlaneOver(under.cr, s.cr, u.streams.cr, bits.cr, extrapolate);
  }

  lemma UpgradedPlaneOver(under: seq<I16>, p: Plane, s: Streams, bits: Quant, extrapolate: bool)
    requires p.Valid() && |under| == COEFFICIENTS && MayUpgrade(p, bits)
    ensures MayUpgrade(Over(under, p), bits)
    ensures UpgradedPlane(Over(under, p), s, bits, extrapolate) == Over(under, UpgradedPlane(p, s, bits, extrapolate))
  {
    hide Upgraded, Over;
    UpgradedOver(under, p, s.srl, s.raw, bits, Sub1(bits).value, CheckedSub(p.bits, bits).value, extrapolate);
  }

  // ---------- A sender's blocks ----------

  function FirstBlock(x: U16, y: U16, index: Three<Byte>, difference: bool, quality: Byte, ts: Source, bits: Three<Quant>,
                      extrapolate: bool): TileBlock
    requires |ts.y| == |ts.cb| == |ts.cr| == COEFFICIENTS && Positive(bits.y) && Positive(bits.cb) && Positive(bits.cr)
  {
    TileBlock(index, x, y, difference, quality,
              Three(FirstBytes(ts.y, bits.y, extrapolate), FirstBytes(ts.cb, bits.cb, extrapolate), FirstBytes(ts.cr, bits.cr, extrapolate)))
  }

  lemma FirstTileShows(b: TileBlock, ts: Source, bits: Three<Quant>, extrapolate: bool)
    requires CodableTile(ts) && PositiveTile(bits)
    requires b.data == FirstBlock(b.x, b.y, b.index, b.difference, b.quality, ts, bits, extrapolate).data
    ensures TileShows(FirstState(b, bits, extrapolate), ts, extrapolate) && BitsOf(FirstState(b, bits, extrapolate)) == bits
  {
    hide FirstBytes, FirstPlane, Shows;
    FirstShows(ts.y, bits.y, extrapolate);
    FirstShows(ts.cb, bits.cb, extrapolate);
    FirstShows(ts.cr, bits.cr, extrapolate);
  }

  /** The streams that take a tile the sender mirrors to the bit positions `bits`. */
  ghost function NextBlock(s: TileState, x: U16, y: U16, index: Three<Byte>, quality: Byte, ts: Source, bits: Three<Quant>,
                           pads: Three<(nat, nat)>, extrapolate: bool): UpgradeBlock
    requires s.Valid() && LowersTile(s, bits) && |ts.y| == |ts.cb| == |ts.cr| == COEFFICIENTS
  {
    UpgradeBlock(index, x, y, quality,
                 Three(UpgradeBytes(s.y, ts.y, bits.y, pads.y, extrapolate), UpgradeBytes(s.cb, ts.cb, bits.cb, pads.cb, extrapolate),
                       UpgradeBytes(s.cr, ts.cr, bits.cr, pads.cr, extrapolate)))
  }

  lemma NextTileShows(s: TileState, u: UpgradeBlock, ts: Source, bits: Three<Quant>, pads: Three<(nat, nat)>, extrapolate: bool)
    requires TileShows(s, ts, extrapolate) && LowersTile(s, bits) && s.Valid() && CodableTile(ts)
    requires u.streams == NextBlock(s, u.x, u.y, u.index, u.quality, ts, bits, pads, extrapolate).streams
    ensures MayUpgradeAll(s, bits)
    ensures TileShows(UpgradedState(s, u, bits, extrapolate), ts, extrapolate) && BitsOf(UpgradedState(s, u, bits, extrapolate)) == bits
  {
    hide UpgradeBytes, UpgradedPlane, Shows, MayUpgrade;
    UpgradeShows(s.y, ts.y, bits.y, pads.y, extrapolate);
    UpgradeShows(s.cb, ts.cb, bits.cb, pads.cb, extrapolate);
    UpgradeShows(s.cr, ts.cr, bits.cr, pads.cr, extrapolate);
  }
}
