/** A sender's tiles that hang over the edge of a surface, and which counter of the client shows it. */
module GfxOverhang {
  import opened Machine
  import opened Canvas
  import opened Paints
  import opened Gfx
  import opened GfxMachine
  import opened GfxRuns
  import opened GfxCodecs
  import GfxAccounts
  import TB = TileBlocks
  import R = Regions
  import RP = RegionPaints
  import RB = RegionBytes
  import RS = RegionSender
  import SS = StreamSender
  import GP = GfxProgressive
  import PS = PlaneSender
  import Bits
  import BandLayout
  import Planes
  import Quants
  import Rlgr

  // ---------- A sender's region as an update ----------

  /** The stream of a single region. */
  ghost function RegionStream(p: SS.Piece, m: RS.Mirror, extrapolate: bool): (data: seq<Byte>)
    requires p.Tiles? && SS.CanSendPiece(p, m, extrapolate)
  {
    RB.BlockBytes(R.REGION, RB.RegionBody(RS.RegionOf(p.rects, p.t, p.cs, m), p.count))
  }

  lemma OneRegionIsAStream(p: SS.Piece, m: RS.Mirror, extrapolate: bool)
    requires p.Tiles? && SS.CanSendPiece(p, m, extrapolate)
    ensures SS.CanSendPieces([p], m, extrapolate) && SS.StreamBytes([p], m, extrapolate) == RegionStream(p, m, extrapolate)
  {
    hide SS.CanSendPiece, RB.BlockBytes, SS.AfterPiece, RS.RegionOf, RB.RegionBody;
    SS.PiecesStep([p], m, extrapolate);
  }

  lemma StreamOfRegion(data: seq<Byte>, body: seq<Byte>, base: TB.Baseline, id: U16)
    requires TB.AllValid(base) && |body| + R.BLOCK_HEADER < 0x1_0000_0000 && data == RB.BlockBytes(R.REGION, body)
    ensures RP.StreamUpdate(base, id, data, 0) == RP.RegionUpdate(base, id, body)
  {
    hide RB.BlockBytes, RP.RegionUpdate, R.BlockLength, TB.Field16, TB.AllValid;
    assert data[0..] == data + [];
    RB.BlockBack(data, 0, R.REGION, body, []);
    var u := RP.RegionUpdate(base, id, body);
    assert u.corners + [] == u.corners && u.paints + [] == u.paints;
  }

  /** A sender's region decodes without failure, and paints the declared parts of the tiles it sends. */
  lemma SentUpdate(p: SS.Piece, m: RS.Mirror, base: TB.Baseline, id: U16, extrapolate: bool)
    requires p.Tiles? && SS.CanSendPiece(p, m, extrapolate) && TB.AllValid(base) && RS.InStep(base, id, m, extrapolate)
    ensures var r := RS.RegionOf(p.rects, p.t, p.cs, m);
            var u, pending := RP.RegionUpdate(base, id, RB.RegionBody(r, p.count)), R.PendingOf(base, id, r);
            && RS.SameTiles(pending, p.cs) && R.AllShaped(pending)
            && u.ok && u.paints == RP.PaintsOf(pending, p.rects) && u.corners == RP.CornersOf(pending)
  {
    hide RS.InStep, RS.CanSendAll, RS.TileStream, R.DecodeTiles, R.ReadRegion, RB.RegionBody, RB.RegionFits, RP.PaintsOf, RP.CornersOf,
         TB.AllValid, RS.SameTiles;
    var r := RS.RegionOf(p.rects, p.t, p.cs, m);
    RB.RegionBack(r, p.count);
    R.PendingIsShaped(base, id, r.tables, r.tiles, 0);
    assert r.tiles[0..] == r.tiles;
    RS.TilesInStep(r.tiles, 0, p.cs, p.t, m, base, id);
  }

  // ---------- Which counter shows it ----------

  function CellAt(x: U16, y: U16): Rect {
    Rect(x * TB.TILE, y * TB.TILE, TB.TILE, TB.TILE)
  }

  /** Every tile of the region begins on the surface, and every declared pixel of it is there. */
  ghost predicate OnSurface(c: Canvas, p: SS.Piece)
    requires p.Tiles?
  {
    forall i :: 0 <= i < |p.cs| ==>
      var cell := CellAt(p.cs[i].x, p.cs[i].y);
      cell.x < c.width && cell.y < c.height && RP.DeclaredOn(c, cell, p.rects, (0, 0))
  }

  lemma FitsIsOnSurface(c: Canvas, u: RP.Update, pending: seq<TB.Decoded>, p: SS.Piece)
    requires p.Tiles? && RS.SameTiles(pending, p.cs) && R.AllShaped(pending)
    requires u.paints == RP.PaintsOf(pending, p.rects) && u.corners == RP.CornersOf(pending)
    ensures RP.Fits(c, u, (0, 0)) <==> OnSurface(c, p)
  {
    RP.TilesDeclare(c, pending, p.rects, (0, 0));
    RP.CornersAre(c, pending, (0, 0));
    hide RP.PaintsOf, RP.CornersOf, RP.DeclaredOn, AllVisible, Area, PaintAt, R.AllShaped;
    assert RP.Fits(c, u, (0, 0)) <==> RP.CornersOn(c, u.corners, (0, 0)) && RP.AllOn(c, u.paints, (0, 0));
    forall i | 0 <= i < |pending|
      ensures R.Cell(pending[i], (0, 0)) == CellAt(p.cs[i].x, p.cs[i].y)
    {
    }
  }

  /**
   Whatever a sender's region clips, the pixel counter stands still; the update counter moves if and
   only if some tile begins off the surface or some declared pixel of a tile is not on it.
   */
  lemma ClippedTilesAreUpdates(s: State, id: U16, p: SS.Piece, m: RS.Mirror, extrapolate: bool)
    requires GP.InStep(s, id, m, extrapolate) && p.Tiles? && SS.CanSendPiece(p, m, extrapolate)
    ensures var t := Apply(s, WireToSurface2(id, CODEC_CAPROGRESSIVE, RegionStream(p, m, extrapolate)));
            && t.stats.droppedPixels == s.stats.droppedPixels
            && t.stats.droppedUpdates == s.stats.droppedUpdates + if OnSurface(s.screen.surfaces[id], p) then 0 else 1
  {
    hide Apply, Lawful, Distinct, TB.AllValid, RS.InStep, RP.Fits, OnSurface, RB.BlockBytes, RB.RegionBody, RP.RegionUpdate, RP.StreamUpdate,
         RS.SameTiles, R.AllShaped, RP.PaintsOf, RP.CornersOf, SS.CanSendPiece;
    BodyIsShort(p, m, extrapolate);
    var body := RB.RegionBody(RS.RegionOf(p.rects, p.t, p.cs, m), p.count);
    var data, c := RegionStream(p, m, extrapolate), s.screen.surfaces[id];
    StreamOfRegion(data, body, s.base, id);
    SentUpdate(p, m, s.base, id, extrapolate);
    FitsIsOnSurface(c, RP.RegionUpdate(s.base, id, body), R.PendingOf(s.base, id, RS.RegionOf(p.rects, p.t, p.cs, m)), p);
    GfxAccounts.ProgressiveIsNotChecked(s, id, data);
  }

  lemma BodyIsShort(p: SS.Piece, m: RS.Mirror, extrapolate: bool)
    requires p.Tiles? && SS.CanSendPiece(p, m, extrapolate)
    ensures RS.CanSendAll(p.cs, p.t, m) && RB.RegionFits(RS.RegionOf(p.rects, p.t, p.cs, m))
    ensures |RB.RegionBody(RS.RegionOf(p.rects, p.t, p.cs, m), p.count)| + R.BLOCK_HEADER < 0x1_0000_0000
  {
  }

  // ---------- A tile that hangs over ----------

  function NoCoefficients(): (ts: seq<int>)
    ensures |ts| == BandLayout.COEFFICIENTS && Planes.Codable(ts)
  {
    seq(BandLayout.COEFFICIENTS, i => 0)
  }

  function Sixes(): (q: Quants.Quant)
    ensures TB.Nibbles(q) && Planes.Positive(q)
  {
    seq(10, i => 6)
  }

  /** One tile of zero coefficients at the origin, and a rectangle that declares all of it. */
  function Overhang(): (p: SS.Piece)
    ensures p.Tiles?
  {
    var ts := TB.Three(NoCoefficients(), NoCoefficients(), NoCoefficients());
    SS.Tiles([Rect(0, 0, 64, 64)], 1, TB.Tables([Sixes()], [], false), [RS.First(0, 0, TB.Three(0, 0, 0), TB.FULL_QUALITY, true, ts)])
  }

  lemma {:induction false} ShrOfZero(n: nat)
    ensures Shr(0, n) == 0
    decreases n
  {
    if n > 0 {
      ShrOfZero(n - 1);
    }
  }

  /** Zero coefficients take no bytes at all. */
  lemma ZerosAreNothing(bits: Quants.Quant)
    requires Planes.Positive(bits)
    ensures PS.FirstBytes(NoCoefficients(), bits, false) == []
  {
    hide BandLayout.BandOf, BandLayout.BandStart;
    var code := Planes.FirstCode(NoCoefficients(), bits, false);
    forall i | 0 <= i < BandLayout.COEFFICIENTS
      ensures Planes.KnownOf(NoCoefficients(), bits, false, i) == 0
    {
      ShrOfZero(bits[BandLayout.BandOf(false, i)] - 1);
    }
    assert forall i :: 0 <= i < |code| ==> code[i] == 0;
    assert Rlgr.Encode(code, Rlgr.INITIAL, 0) == Bits.End;
  }

  /** The tile can be sent, so a region of a sender with a tile exists. */
  lemma OverhangIsSendable()
    ensures SS.CanSendPiece(Overhang(), map[], false)
  {
    hide PS.FirstBytes, Le16Bytes, Le32Bytes;
    var p := Overhang();
    var c, t := p.cs[0], p.t;
    TileIsSendable();
    assert p.cs[1..] == [];
    assert RS.CanSendAll(p.cs, t, map[]);
    assert RS.TileStream(p.cs, t, map[]) == RB.BlockBytes(RS.KindOf(c), RS.BodyOf(c, t, map[])) + [];
  }

  lemma TileIsSendable()
    ensures RS.CanSend(Overhang().cs[0], Overhang().t, map[])
  {
    hide PS.FirstBytes;
    var c, t := Overhang().cs[0], Overhang().t;
    var bits := RS.BitsFor(c, t).value;
    ZerosAreNothing(bits.y);
    ZerosAreNothing(bits.cb);
    ZerosAreNothing(bits.cr);
  }

  ghost function OverhangStream(): seq<Byte> {
    OverhangIsSendable();
    RegionStream(Overhang(), map[], false)
  }

  /** A new client that has created one surface, 32 pixels wide. */
  ghost function Created(width: U32, height: U32): State {
    Apply(Initial(ClientCodecs(), width, height), CreateSurface(0, 32, 64, 0x20))
  }

  lemma StartsWithInv(width: U32, height: U32)
    ensures Inv(Initial(ClientCodecs(), width, height))
  {
    hide Lawful, ClientCodecs;
    ClientIsLawful();
    ReachableInv(ClientCodecs(), width, height, []);
  }

  lemma CreatedIs(width: U32, height: U32)
    ensures var s := Created(width, height);
            && GP.InStep(s, 0, map[], false) && s.codecs == ClientCodecs() && 0 in s.screen.surfaces && s.screen.surfaces[0].width == 32
            && s.stats.droppedPixels == 0 && s.stats.droppedUpdates == 0
  {
    hide Lawful, Distinct, ClientCodecs, RS.InStep, R.Without, TB.AllValid;
    var start := Initial(ClientCodecs(), width, height);
    ClientIsLawful();
    StartsWithInv(width, height);
    GP.CreatedInStep(start, 0, 32, 64, 0x20, false);
  }

  /** The tile's 33rd column is declared, and the surface has 32. */
  lemma OverhangIsClipped(c: Canvas)
    requires c.width == 32
    ensures !OnSurface(c, Overhang()) && !RP.DeclaredOn(c, CellAt(0, 0), Overhang().rects, (0, 0))
  {
    var p := Overhang();
    assert InRect(R.Moved(p.rects[0], (0, 0)), 32, 0);
    assert InRect(CellAt(0, 0), 32, 0) && R.InSome(p.rects, (0, 0), 32, 0);
    assert CellAt(p.cs[0].x, p.cs[0].y) == CellAt(0, 0);
  }

  /** What the client's decoder makes of the stream: the tile decodes, and its paint reaches beyond the surface. */
  lemma OverhangPaints(base: TB.Baseline, c: Canvas)
    requires TB.AllValid(base) && RS.InStep(base, 0, map[], false) && c.width == 32
    ensures var u := RP.StreamUpdate(base, 0, OverhangStream(), 0);
            u.ok && exists p :: p in u.paints && !AllVisible(c, Area(PaintAt(p, (0, 0))))
  {
    OverhangIsSendable();
    OverhangIsClipped(c);
    var p := Overhang();
    var cell := p.cs[0];
    BodyIsShort(p, map[], false);
    hide *;
    var r := RS.RegionOf(p.rects, p.t, p.cs, map[]);
    StreamOfRegion(OverhangStream(), RB.RegionBody(r, p.count), base, 0);
    SentUpdate(p, map[], base, 0, false);
    ClippedPaint(c, R.PendingOf(base, 0, r), p);
  }

  lemma ClippedPaint(c: Canvas, pending: seq<TB.Decoded>, p: SS.Piece)
    requires p == Overhang() && RS.SameTiles(pending, p.cs) && R.AllShaped(pending)
    requires !RP.DeclaredOn(c, CellAt(0, 0), p.rects, (0, 0))
    ensures exists q :: q in RP.PaintsOf(pending, p.rects) && !AllVisible(c, Area(PaintAt(q, (0, 0))))
  {
    RP.TilesDeclare(c, pending, p.rects, (0, 0));
    hide RP.PaintsOf, RP.DeclaredOn, AllVisible, Area, PaintAt, R.AllShaped;
    assert R.Cell(pending[0], (0, 0)) == CellAt(0, 0);
    assert !RP.AllOn(c, RP.PaintsOf(pending, p.rects), (0, 0));
  }

  /**
   The client's own decoders, a surface that has just been created 32 pixels wide, and a tile of 64
   pixels on it: the tile decodes, a declared part of it is not on the surface, and the counter of
   lost pixels stays at zero. What is counted is one update that was not applied.
   */
  lemma PixelCounterMissesTiles(width: U32, height: U32)
    ensures SS.CanSendPieces([Overhang()], map[], false) && OverhangStream() == SS.StreamBytes([Overhang()], map[], false)
    ensures var s := Created(width, height);
            var u := s.codecs.progressive(s.base, 0, OverhangStream());
            var t := Apply(s, WireToSurface2(0, CODEC_CAPROGRESSIVE, OverhangStream()));
            && s.codecs == ClientCodecs() && 0 in s.screen.surfaces && s.screen.surfaces[0].width == 32
            && u.ok && (exists p :: p in u.paints && !AllVisible(s.screen.surfaces[0], Area(PaintAt(p, (0, 0)))))
            && s.stats.droppedPixels == t.stats.droppedPixels == 0 && s.stats.droppedUpdates == 0 && t.stats.droppedUpdates == 1
  {
    hide *;
    var s := Created(width, height);
    OverhangIsAStream();
    CreatedIs(width, height);
    OverhangIsDecoded(s);
    OverhangIsCounted(s);
  }

  lemma OverhangIsAStream()
    ensures SS.CanSendPieces([Overhang()], map[], false) && OverhangStream() == SS.StreamBytes([Overhang()], map[], false)
  {
    hide RegionStream, Overhang, SS.CanSendPiece, SS.CanSendPieces, SS.StreamBytes;
    OverhangIsSendable();
    OneRegionIsAStream(Overhang(), map[], false);
  }

  lemma OverhangIsDecoded(s: State)
    requires GP.InStep(s, 0, map[], false) && 0 in s.screen.surfaces && s.screen.surfaces[0].width == 32
    ensures s.codecs == ClientCodecs()
    ensures var u := s.codecs.progressive(s.base, 0, OverhangStream());
            u.ok && exists p :: p in u.paints && !AllVisible(s.screen.surfaces[0], Area(PaintAt(p, (0, 0))))
  {
    hide Lawful, Distinct, TB.AllValid, RS.InStep, RP.StreamUpdate, OverhangStream, AllVisible, Area, PaintAt, ClearPicture;
    OverhangPaints(s.base, s.screen.surfaces[0]);
  }

  lemma OverhangIsCounted(s: State)
    requires GP.InStep(s, 0, map[], false) && 0 in s.screen.surfaces && s.screen.surfaces[0].width == 32
    ensures var t := Apply(s, WireToSurface2(0, CODEC_CAPROGRESSIVE, OverhangStream()));
            t.stats.droppedPixels == s.stats.droppedPixels && t.stats.droppedUpdates == s.stats.droppedUpdates + 1
  {
    hide GP.InStep, Apply, Overhang, RegionStream, OnSurface, SS.CanSendPiece;
    OverhangIsSendable();
    OverhangIsClipped(s.screen.surfaces[0]);
    ClippedTilesAreUpdates(s, 0, Overhang(), map[], false);
  }
}
