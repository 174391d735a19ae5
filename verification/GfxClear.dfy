/** ClearCodec on surfaces: what a sender's messages leave on the screen, whatever other PDUs lie between them. */
module GfxClear {
  import opened Machine
  import opened Canvas
  import opened Paints
  import opened Screens
  import opened Gfx
  import opened GfxMachine
  import opened GfxRuns
  import opened GfxCodecs
  import opened Grid
  import Surfaces
  import SurfaceManagers
  import RP = RegionPaints
  import VBars
  import C = ClearCodec
  import CR = ClearRuns

  /** A ClearCodec message for a place on a surface, or any PDU that carries none. */
  datatype Step = Tile(id: U16, format: Byte, dest: RectU16, m: CR.Sent) | Plain(pdu: Pdu)

  predicate CarriesClear(pdu: Pdu) {
    pdu.WireToSurface1? && pdu.codec == CODEC_CLEARCODEC
  }

  /** The client decodes a message only for a surface it has and a rectangle whose edges are not swapped. */
  ghost predicate CanStep(t: Step, p: CR.Peer, s: State) {
    match t
    case Tile(id, _, dest, m) =>
      && dest.Size().Some? && m.w == dest.Size().value.0 && m.h == dest.Size().value.1
      && id in s.screen.surfaces && CR.CanSend(m, p)
    case Plain(pdu) => !CarriesClear(pdu)
  }

  function PduOf(t: Step, p: CR.Peer): Pdu
    requires t.Tile? ==> CR.CanSend(t.m, p)
  {
    match t
    case Tile(id, format, dest, m) => WireToSurface1(id, CODEC_CLEARCODEC, format, dest, CR.MessageBytes(m, p))
    case Plain(pdu) => pdu
  }

  function Behind(t: Step, p: CR.Peer): CR.Peer
    requires t.Tile? ==> CR.CanSend(t.m, p)
  {
    if t.Tile? then CR.Following(t.m, p) else p
  }

  /** The client has its own codecs, and its ClearCodec state is in step with the sender. */
  ghost predicate InStep(s: State, p: CR.Peer) {
    s.codecs == ClientCodecs() && CR.InStep(s.clear, p)
  }

  // ---------- One PDU ----------

  /** Each pixel of the surface that the rectangle covers has the tile's colour; no other pixel and no other surface changes. */
  ghost predicate ShowsTile(before: Screen, after: Screen, id: U16, dest: RectU16, w: nat, h: nat, tile: VBars.Tile) {
    && |tile| >= At(0, w, h, 0) && id in before.surfaces && id in after.surfaces
    && after.cache == before.cache && after.surfaces == before.surfaces[id := after.surfaces[id]]
    && var was, now := before.surfaces[id], after.surfaces[id];
       && now.width == was.width && now.height == was.height
       && forall x: nat, y: nat :: x < was.width && y < was.height ==>
            now.rows[y][x] == if InRect(Rect(dest.left, dest.top, w, h), x, y) then OpaqueAt(tile, w, h, x - dest.left, y - dest.top)
                              else was.rows[y][x]
  }

  lemma PaintedTile(c: Image, dest: RectU16, w: nat, h: nat, tile: VBars.Tile)
    requires |tile| >= At(0, w, h, 0)
    ensures var d := Painted(c, Paint(dest.left, dest.top, Canvas(w, h, OpaqueRows(tile, w, h))));
            forall x: nat, y: nat :: x < c.width && y < c.height ==>
              d.rows[y][x] == if InRect(Rect(dest.left, dest.top, w, h), x, y) then OpaqueAt(tile, w, h, x - dest.left, y - dest.top)
                              else c.rows[y][x]
  {
    hide OpaqueAt, At;
    var rows := OpaqueRows(tile, w, h);
    forall x: nat, y: nat | x < c.width && y < c.height
      ensures Blitted(c, dest.left, dest.top, w, rows).rows[y][x] ==
              if InRect(Rect(dest.left, dest.top, w, h), x, y) then OpaqueAt(tile, w, h, x - dest.left, y - dest.top)
              else c.rows[y][x]
    {
      BlitShows(c, dest.left, dest.top, w, rows, x, y);
    }
  }

  lemma ClientClear(data: seq<Byte>, s: C.State, w: nat, h: nat)
    requires s.Valid()
    ensures var d := C.Decode(data, s, w, h);
            ClientCodecs().clear(data, s, w, h) ==
            (d.state, match d.pixels case None => None case Some(tile) => Some(Canvas(w, h, OpaqueRows(tile, w, h))))
  {
    hide C.Decode, OpaqueRows;
  }

  lemma TileShows(s: State, id: U16, format: Byte, dest: RectU16, m: CR.Sent, p: CR.Peer)
    requires InStep(s, p) && CanStep(Tile(id, format, dest, m), p, s)
    ensures var s' := Apply(s, PduOf(Tile(id, format, dest, m), p));
            && InStep(s', Behind(Tile(id, format, dest, m), p))
            && ShowsTile(s.screen, s'.screen, id, dest, m.w, m.h, CR.Meant(m, p))
  {
    hide CR.CanSend, CR.InStep, CR.MessageBytes, CR.Meant, CR.Following, ClientCodecs, ClearPicture, C.Decode, Painted, OpaqueRows,
         Whole, NotedAll, At, OpaqueAt;
    var data, tile := CR.MessageBytes(m, p), CR.Meant(m, p);
    ClearIsValid(s.clear, p);
    CR.MessageInStep(m, p, s.clear);
    ClientClear(data, s.clear, m.w, m.h);
    PaintedTile(s.screen.surfaces[id], dest, m.w, m.h, tile);
  }

  lemma ClearIsValid(s: C.State, p: CR.Peer)
    requires CR.InStep(s, p)
    ensures s.Valid()
  {
  }

  lemma PlainKeepsClear(s: State, pdu: Pdu)
    requires !CarriesClear(pdu)
    ensures Apply(s, pdu).clear == s.clear && Apply(s, pdu).codecs == s.codecs
  {
    hide Whole, FillChecks, FillAll, Stamped, Extracted, SurfaceManagers.StampOutcomes, RawImage, Painted, PaintAll, AllAt,
         Surfaces.BlitOutcome, RP.Fits, NotedAll, Unmapped, Blank, SwappedRects, OpaqueColour;
  }

  /** Any PDU keeps client and sender in step, and a message in step shows its tile. */
  lemma StepShows(t: Step, p: CR.Peer, s: State)
    requires InStep(s, p) && CanStep(t, p, s)
    ensures InStep(Apply(s, PduOf(t, p)), Behind(t, p))
    ensures t.Tile? ==> ShowsTile(s.screen, Apply(s, PduOf(t, p)).screen, t.id, t.dest, t.m.w, t.m.h, CR.Meant(t.m, p))
  {
    hide Apply, ShowsTile, CR.CanSend, CR.InStep, CR.MessageBytes, CR.Meant, CR.Following, ClientCodecs;
    match t
    case Tile(id, format, dest, m) => TileShows(s, id, format, dest, m, p);
    case Plain(pdu) => PlainKeepsClear(s, pdu);
  }

  // ---------- Runs ----------

  ghost predicate CanStepAll(ts: seq<Step>, p: CR.Peer, s: State)
    decreases |ts|
  {
    ts == [] || (CanStep(ts[0], p, s) && CanStepAll(ts[1..], Behind(ts[0], p), Apply(s, PduOf(ts[0], p))))
  }

  ghost function PdusOf(ts: seq<Step>, p: CR.Peer, s: State): seq<Pdu>
    requires CanStepAll(ts, p, s)
    decreases |ts|
  {
    if ts == [] then [] else [PduOf(ts[0], p)] + PdusOf(ts[1..], Behind(ts[0], p), Apply(s, PduOf(ts[0], p)))
  }

  /** Every message of the run shows its tile when its turn has come. */
  ghost predicate AllShown(ts: seq<Step>, p: CR.Peer, s: State)
    requires CanStepAll(ts, p, s)
    decreases |ts|
  {
    ts == [] ||
    (var s' := Apply(s, PduOf(ts[0], p));
     && (ts[0].Tile? ==> ShowsTile(s.screen, s'.screen, ts[0].id, ts[0].dest, ts[0].m.w, ts[0].m.h, CR.Meant(ts[0].m, p)))
     && AllShown(ts[1..], Behind(ts[0], p), s'))
  }

  ghost function BehindAll(ts: seq<Step>, p: CR.Peer, s: State): CR.Peer
    requires CanStepAll(ts, p, s)
    decreases |ts|
  {
    if ts == [] then p else BehindAll(ts[1..], Behind(ts[0], p), Apply(s, PduOf(ts[0], p)))
  }

  /** Over any run of PDUs, every tile a sender composes or recalls appears on its surface as the sender means it. */
  lemma {:induction false} RunShows(ts: seq<Step>, p: CR.Peer, s: State)
    requires InStep(s, p) && CanStepAll(ts, p, s)
    ensures AllShown(ts, p, s)
    ensures InStep(ApplyAll(s, PdusOf(ts, p, s)), BehindAll(ts, p, s))
    decreases |ts|
  {
    hide Apply, ShowsTile, InStep, CR.CanSend, PduOf, Behind;
    if ts != [] {
      StepShows(ts[0], p, s);
      var s' := Apply(s, PduOf(ts[0], p));
      RunShows(ts[1..], Behind(ts[0], p), s');
      assert PdusOf(ts, p, s)[1..] == PdusOf(ts[1..], Behind(ts[0], p), s');
    }
  }

  /** A new connection is in step with a sender that begins with any number. */
  lemma StartsInStep(first: Byte, width: U32, height: U32)
    ensures InStep(Initial(ClientCodecs(), width, height), CR.Newcomer(first))
  {
    hide ClientCodecs, CR.InStep;
    CR.StartsInStep(first);
  }
}
