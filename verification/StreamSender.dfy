/** Whole Progressive bitstreams of a sender: many regions, blocks of other kinds between them, one surface. */
module StreamSender {
  import opened Machine
  import opened Canvas
  import opened Planes
  import opened BandLayout
  import opened TileBlocks
  import opened TileSender
  import opened Regions
  import opened RegionBytes
  import opened RegionSender
  import PS = PlaneSender
  import Differences

  /** A region, or a block that the client skips. */
  datatype Piece =
    | Tiles(rects: seq<Rect>, count: U16, t: Tables, cs: seq<Command>)
    | Skipped(kind: U16, body: seq<Byte>)

  ghost predicate CanSendPiece(p: Piece, m: Mirror, extrapolate: bool) {
    match p
    case Tiles(rects, count, t, cs) =>
      && t.extrapolate == extrapolate && CanSendAll(cs, t, m) && RegionFits(RegionOf(rects, t, cs, m))
      && |RegionBody(RegionOf(rects, t, cs, m), count)| + BLOCK_HEADER < 0x1_0000_0000
    case Skipped(kind, body) => kind != REGION && |body| + BLOCK_HEADER < 0x1_0000_0000
  }

  function PieceKind(p: Piece): U16 {
    if p.Tiles? then REGION else p.kind
  }

  ghost function PieceBody(p: Piece, m: Mirror, extrapolate: bool): (body: seq<Byte>)
    requires CanSendPiece(p, m, extrapolate)
    ensures |body| + BLOCK_HEADER < 0x1_0000_0000
  {
    match p
    case Tiles(rects, count, t, cs) => RegionBody(RegionOf(rects, t, cs, m), count)
    case Skipped(_, body) => body
  }

  ghost function AfterPiece(p: Piece, m: Mirror, extrapolate: bool): Mirror
    requires CanSendPiece(p, m, extrapolate)
  {
    if p.Tiles? then AfterAll(p.cs, p.t, m) else m
  }

  ghost predicate CanSendPieces(ps: seq<Piece>, m: Mirror, extrapolate: bool)
    decreases |ps|
  {
    ps == [] || (CanSendPiece(ps[0], m, extrapolate) && CanSendPieces(ps[1..], AfterPiece(ps[0], m, extrapolate), extrapolate))
  }

  ghost function StreamBytes(ps: seq<Piece>, m: Mirror, extrapolate: bool): seq<Byte>
    requires CanSendPieces(ps, m, extrapolate)
    decreases |ps|
  {
    if ps == [] then []
    else
      BlockBytes(PieceKind(ps[0]), PieceBody(ps[0], m, extrapolate))
      + StreamBytes(ps[1..], AfterPiece(ps[0], m, extrapolate), extrapolate)
  }

  ghost function AfterPieces(ps: seq<Piece>, m: Mirror, extrapolate: bool): Mirror
    requires CanSendPieces(ps, m, extrapolate)
    decreases |ps|
  {
    if ps == [] then m else AfterPieces(ps[1..], AfterPiece(ps[0], m, extrapolate), extrapolate)
  }

  /** What the receiver makes of one block. */
  function Met(p: Piece, body: seq<Byte>, base: Baseline, surface: U16, c: Canvas, origin: (nat, nat)): (s: Shown)
    requires AllValid(base)
    ensures AllValid(s.base)
    ensures c.Valid() ==> s.canvas.Valid() && s.canvas.width == c.width && s.canvas.height == c.height
  {
    if p.Tiles? then DecodeRegion(base, surface, body, c, origin) else Shown(base, c, true)
  }

  /** Every pixel of every tile shows what it should once the block has been met. */
  ghost predicate PieceShown(p: Piece, before: Canvas, after: Canvas, m: Mirror, extrapolate: bool, origin: (nat, nat)) {
    if p.Tiles? then
      forall x: U16, y: U16, dx: nat, dy: nat :: dx < TILE && dy < TILE ==>
        TileShown(before, after, p.rects, p.cs, m, extrapolate, origin, x, y, dx, dy)
    else after == before
  }

  /** From `c` to `end`, after every block of the stream each tile it sends shows the sender's picture. */
  ghost predicate StreamShown(ps: seq<Piece>, m: Mirror, base: Baseline, surface: U16, c: Canvas, end: Canvas, origin: (nat, nat), extrapolate: bool)
    requires CanSendPieces(ps, m, extrapolate) && AllValid(base)
    decreases |ps|
  {
    if ps == [] then end == c
    else
      var s := Met(ps[0], PieceBody(ps[0], m, extrapolate), base, surface, c, origin);
      var m' := AfterPiece(ps[0], m, extrapolate);
      && PieceShown(ps[0], c, s.canvas, m', extrapolate, origin)
      && StreamShown(ps[1..], m', s.base, surface, s.canvas, end, origin, extrapolate)
  }

  lemma PieceInStep(p: Piece, m: Mirror, base: Baseline, surface: U16, c: Canvas, origin: (nat, nat), extrapolate: bool)
    requires CanSendPiece(p, m, extrapolate) && AllValid(base) && InStep(base, surface, m, extrapolate) && c.Valid()
    ensures var s := Met(p, PieceBody(p, m, extrapolate), base, surface, c, origin);
            var m' := AfterPiece(p, m, extrapolate);
            InStep(s.base, surface, m', extrapolate) && PieceShown(p, c, s.canvas, m', extrapolate, origin)
  {
    hide InStep, CanSendAll, AfterAll, RegionOf, RegionBody, RegionFits, ReadRegion, ShowRegion, TileShown, SameTiles, PendingOf, AllValid;
    match p
    case Skipped(_, _) =>
    case Tiles(rects, count, t, cs) =>
      RegionBack(RegionOf(rects, t, cs, m), count);
      RegionInStep(rects, t, cs, m, base, surface, c, origin);
      forall x: U16, y: U16, dx: nat, dy: nat | dx < TILE && dy < TILE
        ensures TileShown(c, ShowRegion(base, surface, RegionOf(rects, t, cs, m), c, origin).canvas, rects, cs, AfterAll(cs, t, m),
                          extrapolate, origin, x, y, dx, dy)
      {
        RegionShows(rects, t, cs, m, base, surface, c, origin, x, y, dx, dy);
      }
  }

  /** The receiver takes the blocks of a stream one by one. */
  lemma StreamStep(data: seq<Byte>, pos: nat, p: Piece, body: seq<Byte>, rest: seq<Byte>, base: Baseline, surface: U16,
                   c: Canvas, origin: (nat, nat))
    requires |body| + BLOCK_HEADER < 0x1_0000_0000 && AllValid(base) && (p.Skipped? ==> p.kind != REGION)
    requires pos <= |data| && data[pos..] == BlockBytes(PieceKind(p), body) + rest
    ensures var s, end := Met(p, body, base, surface, c, origin), pos + 6 + |body|;
            && end <= |data| && data[end..] == rest
            && var t := DecodeStream(s.base, surface, data, end, s.canvas, origin);
               DecodeStream(base, surface, data, pos, c, origin) == Shown(t.base, t.canvas, s.ok && t.ok)
  {
    hide DecodeRegion, BlockLength, Field16, BlockBytes, AllValid;
    BlockBack(data, pos, PieceKind(p), body, rest);
  }

  lemma StreamEnds(data: seq<Byte>, pos: nat, m: Mirror, base: Baseline, surface: U16, c: Canvas, origin: (nat, nat), extrapolate: bool)
    requires AllValid(base) && pos <= |data| && data[pos..] == StreamBytes([], m, extrapolate)
    ensures DecodeStream(base, surface, data, pos, c, origin) == Shown(base, c, true)
    ensures AfterPieces([], m, extrapolate) == m && StreamShown([], m, base, surface, c, c, origin, extrapolate)
  {
  }

  lemma PiecesStep(ps: seq<Piece>, m: Mirror, extrapolate: bool)
    requires ps != [] && CanSendPieces(ps, m, extrapolate)
    ensures CanSendPiece(ps[0], m, extrapolate) && CanSendPieces(ps[1..], AfterPiece(ps[0], m, extrapolate), extrapolate)
    ensures StreamBytes(ps, m, extrapolate) == BlockBytes(PieceKind(ps[0]), PieceBody(ps[0], m, extrapolate))
                                               + StreamBytes(ps[1..], AfterPiece(ps[0], m, extrapolate), extrapolate)
    ensures AfterPieces(ps, m, extrapolate) == AfterPieces(ps[1..], AfterPiece(ps[0], m, extrapolate), extrapolate)
    ensures ps[0].Skipped? ==> ps[0].kind != REGION
  {
    hide PieceKind, PieceBody, AfterPiece, BlockBytes;
  }

  lemma ShownStep(ps: seq<Piece>, m: Mirror, base: Baseline, surface: U16, c: Canvas, end: Canvas, origin: (nat, nat), extrapolate: bool)
    requires ps != [] && CanSendPieces(ps, m, extrapolate) && AllValid(base)
    ensures var s := Met(ps[0], PieceBody(ps[0], m, extrapolate), base, surface, c, origin);
            var m' := AfterPiece(ps[0], m, extrapolate);
            PieceShown(ps[0], c, s.canvas, m', extrapolate, origin) && StreamShown(ps[1..], m', s.base, surface, s.canvas, end, origin, extrapolate)
            ==> StreamShown(ps, m, base, surface, c, end, origin, extrapolate)
  {
    hide PieceShown, Met, PieceBody, AfterPiece, CanSendPiece;
  }

  /**
   A bitstream of any number of regions, whatever blocks lie between them, leaves every tile it
   sends as the sender means it, and sender and receiver with the same tiles.
   */
  lemma {:induction false} StreamInStep(data: seq<Byte>, pos: nat, ps: seq<Piece>, m: Mirror, base: Baseline, surface: U16,
                                        c: Canvas, origin: (nat, nat), extrapolate: bool)
    requires CanSendPieces(ps, m, extrapolate) && AllValid(base) && InStep(base, surface, m, extrapolate) && c.Valid()
    requires pos <= |data| && data[pos..] == StreamBytes(ps, m, extrapolate)
    ensures StreamShown(ps, m, base, surface, c, DecodeStream(base, surface, data, pos, c, origin).canvas, origin, extrapolate)
    ensures InStep(DecodeStream(base, surface, data, pos, c, origin).base, surface, AfterPieces(ps, m, extrapolate), extrapolate)
    decreases |ps|
  {
    hide *;
    if ps == [] {
      StreamEnds(data, pos, m, base, surface, c, origin, extrapolate);
    } else {
      PiecesStep(ps, m, extrapolate);
      var body, m' := PieceBody(ps[0], m, extrapolate), AfterPiece(ps[0], m, extrapolate);
      PieceInStep(ps[0], m, base, surface, c, origin, extrapolate);
      StreamStep(data, pos, ps[0], body, StreamBytes(ps[1..], m', extrapolate), base, surface, c, origin);
      var s := Met(ps[0], body, base, surface, c, origin);
      StreamInStep(data, pos + 6 + |body|, ps[1..], m', s.base, surface, s.canvas, origin, extrapolate);
      ShownStep(ps, m, base, surface, c, DecodeStream(base, surface, data, pos, c, origin).canvas, origin, extrapolate);
    }
  }

  // ---------- Nothing is missing in the end ----------

  /** A tile's coefficients as the receiver stores them. */
  function Stored16(ts: seq<int>): (r: seq<I16>)
    requires Codable(ts)
    ensures |r| == COEFFICIENTS
  {
    seq(COEFFICIENTS, i requires 0 <= i < COEFFICIENTS => ts[i])
  }

  function AllStored(ts: Source): (r: Layer)
    requires CodableTile(ts)
    ensures Sized(r)
  {
    Three(Stored16(ts.y), Stored16(ts.cb), Stored16(ts.cr))
  }

  /** Both layers added, wrapping as the client's 16 bits do. */
  function Sum(a: Layer, b: Layer): (r: Layer)
    requires Sized(a) && Sized(b)
    ensures Sized(r)
  {
    Three(Summed(a.y, b.y), Summed(a.cb, b.cb), Summed(a.cr, b.cr))
  }

  /**
   Once every bit position of a tile is one, its coefficients are exactly those sent last added to what lies under them:
   the sender's own for a tile sent afresh, the sum of both for differences.
   */
  lemma FinalCoefficientsAreExact(held: Held, extrapolate: bool)
    requires HeldShows(held, extrapolate)
    requires forall i :: 0 <= i < 10 ==> held.top.y.bits[i] == held.top.cb.bits[i] == held.top.cr.bits[i] == 1
    ensures CoefficientsOf(held, extrapolate) == Sum(AllStored(held.ts), held.under)
    ensures held.under == NoLayer() ==> CoefficientsOf(held, extrapolate) == AllStored(held.ts)
  {
    hide TileShows, PS.Truncated;
    PS.NothingMissing(held.ts.y, held.top.y.bits, extrapolate);
    PS.NothingMissing(held.ts.cb, held.top.cb.bits, extrapolate);
    PS.NothingMissing(held.ts.cr, held.top.cr.bits, extrapolate);
    assert PS.Truncated(held.ts.y, held.top.y.bits, extrapolate) == Stored16(held.ts.y);
    assert PS.Truncated(held.ts.cb, held.top.cb.bits, extrapolate) == Stored16(held.ts.cb);
    assert PS.Truncated(held.ts.cr, held.top.cr.bits, extrapolate) == Stored16(held.ts.cr);
    SumWithNothing(AllStored(held.ts));
  }

  lemma SumWithNothing(a: Layer)
    requires Sized(a)
    ensures Sum(a, NoLayer()) == a
  {
    hide Summed;
    Differences.SummedWithNothing(a.y);
    Differences.SummedWithNothing(a.cb);
    Differences.SummedWithNothing(a.cr);
  }
}
