/** Progressive tiles on surfaces: what a sender's bitstreams leave on the screen, whatever other PDUs lie between them. */
module GfxProgressive {
  import opened Machine
  import opened Canvas
  import opened Paints
  import opened Gfx
  import opened GfxMachine
  import opened GfxRuns
  import opened GfxCodecs
  import opened GfxIsolation
  import TB = TileBlocks
  import R = Regions
  import RP = RegionPaints
  import RS = RegionSender
  import SS = StreamSender

  /** A bitstream for the surface, at its origin or at a rectangle's corner, or any other PDU. */
  datatype Step = Stream(ps: seq<SS.Piece>) | StreamAt(format: Byte, dest: RectU16, ps: seq<SS.Piece>) | Plain(pdu: Pdu)

  /** Other PDUs may draw on the surface or create it anew, but not delete it or send it tiles of their own. */
  predicate LeavesTiles(pdu: Pdu, id: U16) {
    match pdu
    case WireToSurface1(on, codec, _, _, _) => on != id || codec != CODEC_CAPROGRESSIVE
    case WireToSurface2(on, codec, _) => on != id || codec != CODEC_CAPROGRESSIVE
    case DeleteSurface(on) => on != id
    case _ => true
  }

  ghost predicate CanStep(t: Step, id: U16, m: RS.Mirror, extrapolate: bool) {
    match t
    case Stream(ps) => SS.CanSendPieces(ps, m, extrapolate)
    case StreamAt(_, dest, ps) => dest.Size().Some? && SS.CanSendPieces(ps, m, extrapolate)
    case Plain(pdu) => LeavesTiles(pdu, id)
  }

  ghost function PduOf(t: Step, id: U16, m: RS.Mirror, extrapolate: bool): Pdu
    requires CanStep(t, id, m, extrapolate)
  {
    match t
    case Stream(ps) => WireToSurface2(id, CODEC_CAPROGRESSIVE, SS.StreamBytes(ps, m, extrapolate))
    case StreamAt(format, dest, ps) => WireToSurface1(id, CODEC_CAPROGRESSIVE, format, dest, SS.StreamBytes(ps, m, extrapolate))
    case Plain(pdu) => pdu
  }

  /** A reset and a creation empty the client's tile states, and so the sender's. */
  predicate Forgets(pdu: Pdu, id: U16) {
    pdu.ResetGraphics? || (pdu.CreateSurface? && pdu.surface == id)
  }

  ghost function Behind(t: Step, id: U16, m: RS.Mirror, extrapolate: bool): RS.Mirror
    requires CanStep(t, id, m, extrapolate)
  {
    match t
    case Stream(ps) => SS.AfterPieces(ps, m, extrapolate)
    case StreamAt(_, _, ps) => SS.AfterPieces(ps, m, extrapolate)
    case Plain(pdu) => if Forgets(pdu, id) then map[] else m
  }

  /** The client has its own codecs and the surface, and the tiles its sender believes it has. */
  ghost predicate InStep(s: State, id: U16, m: RS.Mirror, extrapolate: bool) {
    s.codecs == ClientCodecs() && Inv(s) && id in s.screen.surfaces && RS.InStep(s.base, id, m, extrapolate)
  }

  // ---------- Bitstreams ----------

  ghost predicate Drawn(before: State, after: State, id: U16, ps: seq<SS.Piece>, m: RS.Mirror, extrapolate: bool, origin: (nat, nat)) {
    && SS.CanSendPieces(ps, m, extrapolate) && TB.AllValid(before.base)
    && id in before.screen.surfaces && id in after.screen.surfaces
    && after.screen == SetCanvas(before.screen, id, after.screen.surfaces[id])
    && SS.StreamShown(ps, m, before.base, id, before.screen.surfaces[id], after.screen.surfaces[id], origin, extrapolate)
  }

  lemma ClientUpdate(base: TB.Baseline, id: U16, data: seq<Byte>, c: Image, origin: (nat, nat))
    requires TB.AllValid(base)
    ensures var u, s := ClientCodecs().progressive(base, id, data), R.DecodeStream(base, id, data, 0, c, origin);
            u.base == s.base && PaintAll(c, AllAt(u.paints, origin)) == s.canvas
  {
    hide RP.StreamUpdate, R.DecodeStream, TB.AllValid, PaintAll, AllAt, RP.Fits, ClearPicture;
    RP.StreamIsItsUpdate(base, id, data, 0, c, origin);
  }

  lemma StreamDraws(s: State, id: U16, ps: seq<SS.Piece>, m: RS.Mirror, extrapolate: bool, x: U16, y: U16)
    requires InStep(s, id, m, extrapolate) && SS.CanSendPieces(ps, m, extrapolate)
    ensures var e, c := DrawProgressive(s, id, SS.StreamBytes(ps, m, extrapolate), x, y), s.screen.surfaces[id];
            && id in e.screen.surfaces && e.screen == SetCanvas(s.screen, id, e.screen.surfaces[id])
            && TB.AllValid(s.base)
            && RS.InStep(e.base, id, SS.AfterPieces(ps, m, extrapolate), extrapolate)
            && SS.StreamShown(ps, m, s.base, id, c, e.screen.surfaces[id], (x, y), extrapolate)
  {
    hide Lawful, Distinct, TB.AllValid, RS.InStep, ClientCodecs, SS.CanSendPieces, SS.StreamBytes, SS.AfterPieces, SS.StreamShown,
         R.DecodeStream, PaintAll, AllAt, RP.Fits;
    var data, c: Image := SS.StreamBytes(ps, m, extrapolate), s.screen.surfaces[id];
    ClientUpdate(s.base, id, data, c, (x, y));
    assert data[0..] == data;
    SS.StreamInStep(data, 0, ps, m, s.base, id, c, (x, y), extrapolate);
  }

  /** The step's bitstream and where it is drawn, if it is one. */
  ghost predicate StepShown(t: Step, before: State, after: State, id: U16, m: RS.Mirror, extrapolate: bool) {
    match t
    case Stream(ps) => Drawn(before, after, id, ps, m, extrapolate, (0, 0))
    case StreamAt(_, dest, ps) => Drawn(before, after, id, ps, m, extrapolate, (dest.left, dest.top))
    case Plain(_) => true
  }

  lemma StreamApplies(s: State, id: U16, ps: seq<SS.Piece>, m: RS.Mirror, extrapolate: bool)
    requires InStep(s, id, m, extrapolate) && SS.CanSendPieces(ps, m, extrapolate)
    ensures var e, s' := DrawProgressive(s, id, SS.StreamBytes(ps, m, extrapolate), 0, 0), Apply(s, PduOf(Stream(ps), id, m, extrapolate));
            s'.screen == e.screen && s'.base == e.base && s'.codecs == s.codecs
  {
    hide Inv, RS.InStep, ClientCodecs, SS.CanSendPieces, SS.StreamBytes, PaintAll, AllAt, RP.Fits, NotedAll;
  }

  lemma StreamAtApplies(s: State, id: U16, format: Byte, dest: RectU16, ps: seq<SS.Piece>, m: RS.Mirror, extrapolate: bool)
    requires InStep(s, id, m, extrapolate) && SS.CanSendPieces(ps, m, extrapolate) && dest.Size().Some?
    ensures var e := DrawProgressive(s, id, SS.StreamBytes(ps, m, extrapolate), dest.left, dest.top);
            var s' := Apply(s, PduOf(StreamAt(format, dest, ps), id, m, extrapolate));
            s'.screen == e.screen && s'.base == e.base && s'.codecs == s.codecs
  {
    hide Inv, RS.InStep, ClientCodecs, SS.CanSendPieces, SS.StreamBytes, PaintAll, AllAt, RP.Fits, NotedAll, DrawClear, DrawRaw;
  }

  /** A bitstream for the surface: everything it sends appears as the sender means it. */
  lemma StreamShows(t: Step, s: State, id: U16, m: RS.Mirror, extrapolate: bool)
    requires InStep(s, id, m, extrapolate) && CanStep(t, id, m, extrapolate) && !t.Plain?
    ensures var s' := Apply(s, PduOf(t, id, m, extrapolate));
            StepShown(t, s, s', id, m, extrapolate) && InStep(s', id, Behind(t, id, m, extrapolate), extrapolate)
  {
    hide Apply, Inv, RS.InStep, ClientCodecs, SS.CanSendPieces, SS.StreamBytes, SS.AfterPieces, SS.StreamShown, DrawProgressive, SetCanvas;
    ApplyKeepsInv(s, PduOf(t, id, m, extrapolate));
    match t
    case Stream(ps) =>
      StreamApplies(s, id, ps, m, extrapolate);
      StreamDraws(s, id, ps, m, extrapolate, 0, 0);
    case StreamAt(format, dest, ps) =>
      StreamAtApplies(s, id, format, dest, ps, m, extrapolate);
      StreamDraws(s, id, ps, m, extrapolate, dest.left, dest.top);
  }

  // ---------- Other PDUs ----------

  /** What a sender and the client agree on concerns the surface's own tiles only. */
  lemma OwnTiles(a: TB.Baseline, b: TB.Baseline, id: U16, m: RS.Mirror, extrapolate: bool)
    requires RS.InStep(a, id, m, extrapolate) && TB.AllValid(b) && R.Only(a, id) == R.Only(b, id)
    ensures RS.InStep(b, id, m, extrapolate)
  {
    forall k | k in m
      ensures RS.HeldShows(m[k], extrapolate)
      ensures TB.Key(id, k.0, k.1) in b && b[TB.Key(id, k.0, k.1)] == RS.StateOf(m[k])
    {
      assert TB.Key(id, k.0, k.1) in R.Only(a, id);
    }
  }

  lemma NoTiles(base: TB.Baseline, id: U16, extrapolate: bool)
    requires TB.AllValid(base)
    ensures RS.InStep(base, id, map[], extrapolate)
  {
  }

  lemma EffectLeavesTiles(s: State, id: U16, pdu: Pdu)
    requires Inv(s) && LeavesTiles(pdu, id)
    ensures R.Only(EffectOf(s, pdu).base, id) == R.Only(s.base, id)
    ensures EffectOf(s, pdu).screen.surfaces.Keys == s.screen.surfaces.Keys
  {
    hide EffectOf, Inv, R.Only;
    EffectOnTiles(s, pdu);
    if Decodes(s, pdu).Some? {
      DecodedTiles(s, id, Decodes(s, pdu).value.0, Decodes(s, pdu).value.1);
    }
  }

  lemma PlainLeavesTiles(s: State, id: U16, pdu: Pdu)
    requires Inv(s) && id in s.screen.surfaces && LeavesTiles(pdu, id)
    ensures id in Apply(s, pdu).screen.surfaces && Apply(s, pdu).codecs == s.codecs
    ensures !Forgets(pdu, id) ==> R.Only(Apply(s, pdu).base, id) == R.Only(s.base, id)
  {
    hide EffectOf, Inv, R.Only, R.Without, Unmapped, Blank, NotedAll, LeavesTiles;
    match pdu
    case CapsConfirm =>
    case ResetGraphics(_, _) =>
    case CreateSurface(on, _, _, _) => WithoutIs(s.base, on, id);
    case DeleteSurface(on) =>
      DeletesOther(on, id);
      WithoutIs(s.base, on, id);
    case MapSurfaceToOutput(_, _, _) =>
    case StartFrame(_) =>
    case EndFrame(_) =>
    case _ =>
      EffectIgnoresStats(s, CountedStats(s.stats, pdu), pdu);
      EffectLeavesTiles(s, id, pdu);
      var was, now: set<U16> := s.screen.surfaces.Keys, EffectOf(s, pdu).screen.surfaces.Keys;
      assert id in was && id in now;
  }

  lemma DeletesOther(on: U16, id: U16)
    requires LeavesTiles(DeleteSurface(on), id)
    ensures on != id
  {
  }

  lemma PlainInStep(s: State, id: U16, pdu: Pdu, m: RS.Mirror, extrapolate: bool)
    requires InStep(s, id, m, extrapolate) && LeavesTiles(pdu, id)
    ensures InStep(Apply(s, pdu), id, if Forgets(pdu, id) then map[] else m, extrapolate)
  {
    hide Apply, RS.InStep, ClientCodecs, Lawful, Distinct, R.Only, TB.AllValid, LeavesTiles;
    ApplyKeepsInv(s, pdu);
    PlainLeavesTiles(s, id, pdu);
    if Forgets(pdu, id) {
      NoTiles(Apply(s, pdu).base, id, extrapolate);
    } else {
      OwnTiles(s.base, Apply(s, pdu).base, id, m, extrapolate);
    }
  }

  lemma StepInStep(t: Step, s: State, id: U16, m: RS.Mirror, extrapolate: bool)
    requires InStep(s, id, m, extrapolate) && CanStep(t, id, m, extrapolate)
    ensures var s' := Apply(s, PduOf(t, id, m, extrapolate));
            StepShown(t, s, s', id, m, extrapolate) && InStep(s', id, Behind(t, id, m, extrapolate), extrapolate)
  {
    hide Apply, InStep, Drawn, SS.CanSendPieces, SS.StreamBytes, SS.AfterPieces, Forgets, LeavesTiles;
    if t.Plain? {
      PlainInStep(s, id, t.pdu, m, extrapolate);
    } else {
      StreamShows(t, s, id, m, extrapolate);
    }
  }

  // ---------- Runs ----------

  ghost predicate CanStepAll(ts: seq<Step>, id: U16, m: RS.Mirror, extrapolate: bool)
    decreases |ts|
  {
    ts == [] || (CanStep(ts[0], id, m, extrapolate) && CanStepAll(ts[1..], id, Behind(ts[0], id, m, extrapolate), extrapolate))
  }

  ghost function PdusOf(ts: seq<Step>, id: U16, m: RS.Mirror, extrapolate: bool): seq<Pdu>
    requires CanStepAll(ts, id, m, extrapolate)
    decreases |ts|
  {
    if ts == [] then []
    else [PduOf(ts[0], id, m, extrapolate)] + PdusOf(ts[1..], id, Behind(ts[0], id, m, extrapolate), extrapolate)
  }

  ghost function BehindAll(ts: seq<Step>, id: U16, m: RS.Mirror, extrapolate: bool): RS.Mirror
    requires CanStepAll(ts, id, m, extrapolate)
    decreases |ts|
  {
    if ts == [] then m else BehindAll(ts[1..], id, Behind(ts[0], id, m, extrapolate), extrapolate)
  }

  /** Every bitstream of the run shows what it sends when its turn has come. */
  ghost predicate AllShown(ts: seq<Step>, s: State, id: U16, m: RS.Mirror, extrapolate: bool)
    requires CanStepAll(ts, id, m, extrapolate)
    decreases |ts|
  {
    ts == [] ||
    (var s' := Apply(s, PduOf(ts[0], id, m, extrapolate));
     && StepShown(ts[0], s, s', id, m, extrapolate)
     && AllShown(ts[1..], s', id, Behind(ts[0], id, m, extrapolate), extrapolate))
  }

  /** Over any run of PDUs, every tile a sender sends or refines appears on its surface as the sender means it. */
  lemma {:induction false} RunShows(ts: seq<Step>, s: State, id: U16, m: RS.Mirror, extrapolate: bool)
    requires InStep(s, id, m, extrapolate) && CanStepAll(ts, id, m, extrapolate)
    ensures AllShown(ts, s, id, m, extrapolate)
    ensures InStep(ApplyAll(s, PdusOf(ts, id, m, extrapolate)), id, BehindAll(ts, id, m, extrapolate), extrapolate)
    decreases |ts|
  {
    hide Apply, StepShown, InStep, CanStep, PduOf, Behind;
    if ts != [] {
      var m' := Behind(ts[0], id, m, extrapolate);
      var s' := Apply(s, PduOf(ts[0], id, m, extrapolate));
      StepInStep(ts[0], s, id, m, extrapolate);
      RunShows(ts[1..], s', id, m', extrapolate);
      assert PdusOf(ts, id, m, extrapolate)[1..] == PdusOf(ts[1..], id, m', extrapolate);
    }
  }

  /** A surface that has just been created holds no tiles, and its sender begins with none. */
  lemma CreatedInStep(s: State, id: U16, w: U16, h: U16, format: Byte, extrapolate: bool)
    requires Inv(s) && s.codecs == ClientCodecs()
    ensures InStep(Apply(s, CreateSurface(id, w, h, format)), id, map[], extrapolate)
  {
    hide Lawful, Distinct, TB.AllValid, ClientCodecs, R.Without, Blank, RS.InStep;
    ApplyKeepsInv(s, CreateSurface(id, w, h, format));
    NoTiles(Apply(s, CreateSurface(id, w, h, format)).base, id, extrapolate);
  }
}
