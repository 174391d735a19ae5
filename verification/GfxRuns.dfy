/** Whole runs of graphics PDUs: what every reachable state keeps, and what a message amounts to. */
module GfxRuns {
  import opened Machine
  import opened Canvas
  import opened Surfaces
  import opened Screens
  import opened Gfx
  import opened GfxMachine
  import TB = TileBlocks
  import R = Regions
  import C = ClearCodec
  import SurfaceManagers
  import opened Paints

  // ---------- The invariant ----------

  ghost predicate Distinct(outputs: seq<Mapping>) {
    forall i, j :: 0 <= i < j < |outputs| ==> outputs[i].surface != outputs[j].surface
  }

  /** A bitstream for a surface touches the tile states of this surface only, and depends on no others. */
  ghost predicate LocalAt(k: Codecs, base: TB.Baseline, id: U16, bitmap: seq<Byte>) {
    var u := k.progressive(base, id, bitmap);
    && TB.AllValid(u.base)
    && R.Only(u.base, id) == k.progressive(R.Only(base, id), id, bitmap).base
    && forall other: U16 :: other != id ==> R.Only(u.base, other) == R.Only(base, other)
  }

  ghost predicate Lawful(k: Codecs) {
    forall base: TB.Baseline, id: U16, bitmap: seq<Byte> :: TB.AllValid(base) ==> LocalAt(k, base, id, bitmap)
  }

  /** Every tile state belongs to a live surface, and no surface is mapped twice. */
  ghost predicate Inv(s: State) {
    && Lawful(s.codecs) && TB.AllValid(s.base)
    && (forall k :: k in s.base ==> k.surface in s.screen.surfaces)
    && Distinct(s.outputs)
  }

  function Initial(codecs: Codecs, width: U32, height: U32): State {
    State(codecs, Screen(map[], map[]), C.Fresh(), map[], [], (width, height), 0, 0, false,
          Stats(0, 0, 0, 0, 0, 0, 0, 0, 0, 0, 0, 0, 0))
  }

  lemma {:induction false} UnmappedIs(outputs: seq<Mapping>, id: U16)
    ensures forall m :: m in Unmapped(outputs, id) ==> m in outputs && m.surface != id
    ensures Distinct(outputs) ==> Distinct(Unmapped(outputs, id))
    decreases |outputs|
  {
    if outputs != [] {
      var rest := outputs[1..];
      UnmappedIs(rest, id);
      if Distinct(outputs) {
        DistinctTail(outputs);
        if outputs[0].surface != id {
          DistinctFront(outputs[0], Unmapped(rest, id));
        }
      }
    }
  }

  lemma DistinctTail(outputs: seq<Mapping>)
    requires outputs != [] && Distinct(outputs)
    ensures Distinct(outputs[1..]) && forall m :: m in outputs[1..] ==> m.surface != outputs[0].surface
  {
    var rest := outputs[1..];
    forall i, j | 0 <= i < j < |rest|
      ensures rest[i].surface != rest[j].surface
    {
      assert rest[i] == outputs[i + 1] && rest[j] == outputs[j + 1];
    }
    forall m | m in rest
      ensures m.surface != outputs[0].surface
    {
      var i :| 0 <= i < |rest| && rest[i] == m;
      assert outputs[i + 1] == m;
    }
  }

  lemma DistinctFront(m: Mapping, rest: seq<Mapping>)
    requires Distinct(rest) && forall n :: n in rest ==> n.surface != m.surface
    ensures Distinct([m] + rest)
  {
    var all := [m] + rest;
    forall i, j | 0 <= i < j < |all|
      ensures all[i].surface != all[j].surface
    {
      assert all[j] == rest[j - 1] && all[j] in rest;
    }
  }

  lemma DistinctBack(rest: seq<Mapping>, m: Mapping)
    requires Distinct(rest) && forall n :: n in rest ==> n.surface != m.surface
    ensures Distinct(rest + [m])
  {
    var all := rest + [m];
    forall i, j | 0 <= i < j < |all|
      ensures all[i].surface != all[j].surface
    {
      assert all[i] == rest[i] && rest[i] in rest;
    }
  }

  lemma NoneIsDistinct()
    ensures Distinct([])
  {
  }

  // ---------- One PDU ----------

  lemma DecodedBelongs(s: State, id: U16, bitmap: seq<Byte>)
    requires Inv(s) && id in s.screen.surfaces
    ensures var u := s.codecs.progressive(s.base, id, bitmap);
            TB.AllValid(u.base) && forall k :: k in u.base ==> k.surface in s.screen.surfaces
  {
    hide Distinct, TB.AllValid;
    var u := s.codecs.progressive(s.base, id, bitmap);
    assert LocalAt(s.codecs, s.base, id, bitmap);
    forall k | k in u.base && k.surface != id
      ensures k in s.base
    {
      assert k in R.Only(u.base, k.surface);
    }
  }

  /** What drawing leaves alone: which surfaces there are, and the tile states unless a bitstream was decoded. */
  lemma EffectKeeps(s: State, pdu: Pdu)
    ensures EffectOf(s, pdu).screen.surfaces.Keys == s.screen.surfaces.Keys
    ensures !pdu.WireToSurface1? && !pdu.WireToSurface2? ==> EffectOf(s, pdu).base == s.base && EffectOf(s, pdu).clear == s.clear
    ensures EffectOf(s, pdu).base == s.base ||
            (exists id: U16, bitmap: seq<Byte> :: id in s.screen.surfaces && EffectOf(s, pdu).base == s.codecs.progressive(s.base, id, bitmap).base)
  {
    hide Whole, FillChecks, FillAll, Stamped, Extracted, SurfaceManagers.StampOutcomes, Draw1, DrawProgressive, SwappedRects, OpaqueColour;
    match pdu
    case WireToSurface1(id, codec, _, dest, bitmap) => Draw1Keeps(s, id, codec, dest, bitmap);
    case WireToSurface2(id, codec, bitmap) =>
      if id in s.screen.surfaces {
        ProgressiveKeeps(s, id, bitmap, 0, 0);
      }
    case _ =>
  }

  lemma ProgressiveKeeps(s: State, id: U16, bitmap: seq<Byte>, x: U16, y: U16)
    requires id in s.screen.surfaces
    ensures DrawProgressive(s, id, bitmap, x, y).screen.surfaces.Keys == s.screen.surfaces.Keys
    ensures DrawProgressive(s, id, bitmap, x, y).base == s.codecs.progressive(s.base, id, bitmap).base
  {
  }

  lemma Draw1Keeps(s: State, id: U16, codec: U16, dest: RectU16, bitmap: seq<Byte>)
    ensures Draw1(s, id, codec, dest, bitmap).screen.surfaces.Keys == s.screen.surfaces.Keys
    ensures Draw1(s, id, codec, dest, bitmap).base == s.base ||
            (id in s.screen.surfaces && Draw1(s, id, codec, dest, bitmap).base == s.codecs.progressive(s.base, id, bitmap).base)
  {
    hide Whole, DrawProgressive, RawImage, Painted, BlitOutcome;
    if id in s.screen.surfaces {
      ProgressiveKeeps(s, id, bitmap, dest.left, dest.top);
    }
  }

  lemma EffectKeepsInv(s: State, pdu: Pdu)
    requires Inv(s)
    ensures Inv(Effected(s, EffectOf(s, pdu)))
  {
    hide EffectOf, Lawful, Distinct, TB.AllValid, NotedAll;
    EffectKeeps(s, pdu);
    if EffectOf(s, pdu).base != s.base {
      var id: U16, bitmap: seq<Byte> :| id in s.screen.surfaces && EffectOf(s, pdu).base == s.codecs.progressive(s.base, id, bitmap).base;
      DecodedBelongs(s, id, bitmap);
    }
  }

  /** Every PDU keeps the invariant. */
  lemma ApplyKeepsInv(s: State, pdu: Pdu)
    requires Inv(s)
    ensures Inv(Apply(s, pdu))
  {
    hide Lawful, Distinct, Unmapped, Blank, Effected, EffectOf;
    match pdu
    case DeleteSurface(id) => UnmappedIs(s.outputs, id);
    case MapSurfaceToOutput(id, x, y) =>
      UnmappedIs(s.outputs, id);
      DistinctBack(Unmapped(s.outputs, id), Mapping(id, x, y));
    case ResetGraphics(_, _) => NoneIsDistinct();
    case CapsConfirm =>
    case CreateSurface(_, _, _, _) =>
    case StartFrame(_) =>
    case EndFrame(_) =>
    case _ => EffectKeepsInv(Counted(s, pdu), pdu);
  }

  // ---------- Runs ----------

  ghost function ApplyAll(s: State, pdus: seq<Pdu>): State
    decreases |pdus|
  {
    if pdus == [] then s else ApplyAll(Apply(s, pdus[0]), pdus[1..])
  }

  lemma {:induction false} RunKeepsInv(s: State, pdus: seq<Pdu>)
    requires Inv(s)
    ensures Inv(ApplyAll(s, pdus))
    decreases |pdus|
  {
    hide Apply, Inv;
    if pdus != [] {
      ApplyKeepsInv(s, pdus[0]);
      RunKeepsInv(Apply(s, pdus[0]), pdus[1..]);
    }
  }

  /** Every reachable state satisfies the invariant. */
  lemma ReachableInv(codecs: Codecs, width: U32, height: U32, pdus: seq<Pdu>)
    requires Lawful(codecs)
    ensures Inv(ApplyAll(Initial(codecs, width, height), pdus))
  {
    hide Lawful, ApplyAll;
    RunKeepsInv(Initial(codecs, width, height), pdus);
  }

  // ---------- Frames ----------

  /** The frames a run ends, in order. */
  function EndFrames(pdus: seq<Pdu>): seq<U32> {
    if pdus == [] then [] else (if pdus[0].EndFrame? then [pdus[0].frame] else []) + EndFrames(pdus[1..])
  }

  ghost function Actions(s: State, pdus: seq<Pdu>): seq<Action>
    decreases |pdus|
  {
    if pdus == [] then [] else ActionOf(s, pdus[0]) + Actions(Apply(s, pdus[0]), pdus[1..])
  }

  lemma FramesCount(s: State, pdu: Pdu)
    ensures Apply(s, pdu).frames == if pdu.EndFrame? then NextFrame(s.frames) else s.frames
  {
    hide EffectOf, NotedAll;
  }

  function NextFrame(frames: U32): U32 {
    (frames + 1) % 0x1_0000_0000
  }

  /** One acknowledgement for each frame, their totals counting on from `frames`. */
  function AcksFrom(frames: U32, ends: seq<U32>): (r: seq<Action>)
    ensures |r| == |ends|
    decreases |ends|
  {
    if ends == [] then [] else [Acknowledge(ends[0], NextFrame(frames))] + AcksFrom(NextFrame(frames), ends[1..])
  }

  lemma {:induction false} AcksFromAt(frames: U32, ends: seq<U32>, k: nat)
    requires k < |ends|
    ensures AcksFrom(frames, ends)[k] == Acknowledge(ends[k], (frames + k + 1) % 0x1_0000_0000)
    decreases k
  {
    if k > 0 {
      AcksFromAt(NextFrame(frames), ends[1..], k - 1);
      NextTotal(frames, k);
    }
  }

  lemma NextTotal(frames: U32, k: nat)
    ensures (NextFrame(frames) + k) % 0x1_0000_0000 == (frames + k + 1) % 0x1_0000_0000
  {
  }

  lemma {:induction false} ActionsAreAcks(s: State, pdus: seq<Pdu>)
    ensures Actions(s, pdus) == AcksFrom(s.frames, EndFrames(pdus))
    decreases |pdus|
  {
    if pdus != [] {
      FramesCount(s, pdus[0]);
      hide Apply, NextFrame;
      ActionsAreAcks(Apply(s, pdus[0]), pdus[1..]);
      var ends := EndFrames(pdus[1..]);
      if pdus[0].EndFrame? {
        assert EndFrames(pdus) == [pdus[0].frame] + ends && ([pdus[0].frame] + ends)[1..] == ends;
      } else {
        assert EndFrames(pdus) == ends;
      }
    }
  }

  /** One acknowledgement for each END_FRAME, in order, with totals that count on from the frames seen before. */
  lemma AcksAreConsecutive(s: State, pdus: seq<Pdu>, k: nat)
    requires k < |EndFrames(pdus)|
    ensures |Actions(s, pdus)| == |EndFrames(pdus)|
    ensures Actions(s, pdus)[k] == Acknowledge(EndFrames(pdus)[k], (s.frames + k + 1) % 0x1_0000_0000)
  {
    hide *;
    ActionsAreAcks(s, pdus);
    AcksFromAt(s.frames, EndFrames(pdus), k);
  }

  // ---------- Messages and failures ----------

  /** The counters that a PDU with an unparseable body changes. */
  function ShiftedStats(st: Stats, n: nat): Stats {
    st.(parseFailures := st.parseFailures + n, droppedUpdates := st.droppedUpdates + n)
  }

  function Shifted(s: State, n: nat): State {
    s.(stats := ShiftedStats(s.stats, n))
  }

  lemma {:induction false} NotedShift(st: Stats, os: seq<WriteOutcome>, n: nat)
    ensures NotedAll(ShiftedStats(st, n), os) == ShiftedStats(NotedAll(st, os), n)
    decreases |os|
  {
    if os != [] {
      NotedShift(Noted(st, os[0]), os[1..], n);
    }
  }

  /** Drawing does not look at the counters. */
  lemma EffectIgnoresStats(s: State, st: Stats, pdu: Pdu)
    ensures EffectOf(s.(stats := st), pdu) == EffectOf(s, pdu)
  {
    hide Whole, FillChecks, FillAll, Stamped, Extracted, SurfaceManagers.StampOutcomes, Painted, PaintAll, AllAt, RawImage, BlitOutcome, RP.Fits;
  }

  lemma CountedShift(s: State, pdu: Pdu, n: nat)
    ensures Counted(Shifted(s, n), pdu) == Shifted(Counted(s, pdu), n)
  {
  }

  lemma EffectedShift(s: State, e: Effect, n: nat)
    ensures Effected(Shifted(s, n), e) == Shifted(Effected(s, e), n)
  {
    NotedShift(s.stats, e.checks, n);
  }

  /** The state after a message's entries. */
  ghost function ApplyEntries(s: State, es: seq<Entry>): State
    decreases |es|
  {
    if es == [] then s
    else
      match es[0]
      case Parsed(pdu) => ApplyEntries(Apply(s, pdu), es[1..])
      case Failed(_) => ApplyEntries(Shifted(s, 1), es[1..])
  }

  ghost function EntryActions(s: State, es: seq<Entry>): seq<Action>
    decreases |es|
  {
    if es == [] then []
    else
      match es[0]
      case Parsed(pdu) => ActionOf(s, pdu) + EntryActions(Apply(s, pdu), es[1..])
      case Failed(_) => EntryActions(Shifted(s, 1), es[1..])
  }

  function Parseable(es: seq<Entry>): seq<Pdu> {
    if es == [] then [] else (if es[0].Parsed? then [es[0].pdu] else []) + Parseable(es[1..])
  }

  function Failures(es: seq<Entry>): nat {
    if es == [] then 0 else (if es[0].Failed? then 1 else 0) + Failures(es[1..])
  }

  lemma {:induction false} RunShift(s: State, pdus: seq<Pdu>, n: nat)
    ensures ApplyAll(Shifted(s, n), pdus) == Shifted(ApplyAll(s, pdus), n) && Actions(Shifted(s, n), pdus) == Actions(s, pdus)
    decreases |pdus|
  {
    if pdus != [] {
      hide Counted, EffectOf, Effected, Unmapped, Blank;
      var c := Counted(s, pdus[0]);
      CountedShift(s, pdus[0], n);
      EffectIgnoresStats(c, ShiftedStats(c.stats, n), pdus[0]);
      EffectedShift(c, EffectOf(c, pdus[0]), n);
      assert Apply(Shifted(s, n), pdus[0]) == Shifted(Apply(s, pdus[0]), n);
      assert ActionOf(Shifted(s, n), pdus[0]) == ActionOf(s, pdus[0]);
      hide Apply, ActionOf;
      RunShift(Apply(s, pdus[0]), pdus[1..], n);
    }
  }

  /** Applying a message is applying its parseable PDUs in order; each unparseable one changes only the failure counters. */
  lemma {:induction false} FailuresAreIsolated(s: State, es: seq<Entry>)
    ensures ApplyEntries(s, es) == Shifted(ApplyAll(s, Parseable(es)), Failures(es))
    ensures EntryActions(s, es) == Actions(s, Parseable(es))
    decreases |es|
  {
    hide Apply, ActionOf;
    if es != [] {
      var rest := Parseable(es[1..]);
      match es[0]
      case Parsed(pdu) =>
        FailuresAreIsolated(Apply(s, pdu), es[1..]);
        assert Parseable(es) == [pdu] + rest && ([pdu] + rest)[1..] == rest;
      case Failed(_) =>
        FailuresAreIsolated(Shifted(s, 1), es[1..]);
        RunShift(s, rest, 1);
        assert Parseable(es) == rest;
    }
  }

  /** One message; broken framing applies nothing. */
  ghost function ApplyMessage(s: State, message: seq<Byte>): (State, Option<seq<Action>>) {
    match Split(message, 0)
    case None => (s, None)
    case Some(es) => (ApplyEntries(s, es), Some(EntryActions(s, es)))
  }

  /** What a message does: its parseable PDUs in order, and one failure for each of the others; or nothing, if its framing is broken. */
  lemma MessageIsItsPdus(s: State, message: seq<Byte>)
    ensures ApplyMessage(s, message) ==
            match Split(message, 0)
            case None => (s, None)
            case Some(es) => (Shifted(ApplyAll(s, Parseable(es)), Failures(es)), Some(Actions(s, Parseable(es))))
    ensures Inv(s) ==> Inv(ApplyMessage(s, message).0)
  {
    hide Split, ApplyEntries, EntryActions, Actions, ApplyAll, Parseable, Failures, Lawful, Distinct;
    match Split(message, 0)
    case None =>
    case Some(es) =>
      FailuresAreIsolated(s, es);
      if Inv(s) {
        RunKeepsInv(s, Parseable(es));
      }
  }

  lemma {:induction false} AllParsed(ps: seq<Pdu>)
    ensures Parseable(ParsedAll(ps)) == ps && Failures(ParsedAll(ps)) == 0
    decreases |ps|
  {
    if ps != [] {
      var all := ParsedAll(ps);
      assert all[0] == Parsed(ps[0]) && all[1..] == ParsedAll(ps[1..]);
      AllParsed(ps[1..]);
    }
  }

  /** The message a sender frames from PDUs has the effect and the acknowledgements of these PDUs. */
  lemma SentIsApplied(s: State, ps: seq<Pdu>)
    requires AllSendable(ps)
    ensures ApplyMessage(s, FrameAll(FramedPdus(ps))) == (ApplyAll(s, ps), Some(Actions(s, ps)))
  {
    hide Apply, ApplyAll, Actions, ApplyMessage, Split, FrameAll, FramedPdus, Parseable, Failures;
    MessageRoundTrip(ps);
    MessageIsItsPdus(s, FrameAll(FramedPdus(ps)));
    AllParsed(ps);
  }

  lemma {:induction false} RunsJoin(s: State, a: seq<Pdu>, b: seq<Pdu>)
    ensures ApplyAll(s, a + b) == ApplyAll(ApplyAll(s, a), b)
    ensures Actions(s, a + b) == Actions(s, a) + Actions(ApplyAll(s, a), b)
    decreases |a|
  {
    hide Apply, ActionOf;
    if a == [] {
      assert a + b == b;
    } else {
      assert (a + b)[0] == a[0] && (a + b)[1..] == a[1..] + b;
      RunsJoin(Apply(s, a[0]), a[1..], b);
    }
  }
}
