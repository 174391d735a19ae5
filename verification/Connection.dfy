/** The graphics loop of `session.rs`: each message the router hands out is decompressed and applied. */
module Connection {
  import opened Machine
  import opened Zgfx
  import opened ZgfxMessages
  import opened Gfx
  import opened GfxMachine
  import opened GfxRuns
  import GfxCodecs
  import GfxStates
  import VChannel
  import DvcDelivery
  import Router
  import ZgfxDecoder

  // ---------- The loop ----------

  /** One message: the state and the history behind it, and what it asks for; None if it ends the connection. */
  datatype Turned = Turned(state: State, history: History, acks: Option<seq<Action>>)

  ghost function Turn(s: State, h: History, message: seq<Byte>): Turned {
    MessageExtends(message, h);
    var d := DecodeMessage(message, h);
    if !d.ok then Turned(s, d.history, None)
    else
      var (s', acks) := ApplyMessage(s, d.history[|h|..]);
      Turned(s', d.history, acks)
  }

  /** Where the loop stands after some messages; `ok` is false once it has ended with an error. */
  datatype Served = Served(state: State, history: History, acks: seq<Action>, ok: bool)

  ghost function Serve(s: State, h: History, messages: seq<seq<Byte>>): Served
    decreases |messages|
  {
    if messages == [] then Served(s, h, [], true)
    else
      var t := Turn(s, h, messages[0]);
      match t.acks
      case None => Served(t.state, t.history, [], false)
      case Some(acks) =>
        var rest := Serve(t.state, t.history, messages[1..]);
        rest.(acks := acks + rest.acks)
  }

  /** Decompresses one message and applies it. */
  method ServeOne(message: seq<Byte>, zgfx: ZgfxDecoder.ZgfxContext, gfx: GfxStates.GfxState) returns (acks: Option<seq<Action>>)
    requires zgfx.Valid() && gfx.Valid() && gfx.codecs == GfxCodecs.ClientCodecs()
    modifies zgfx`index, zgfx`stream, zgfx.history, gfx, gfx.surfaces, gfx.surfaces.Arrays(), gfx.progressiveCtx, gfx.clearCtx
    modifies gfx.clearCtx.glyphCache, gfx.clearCtx.vbarStorage, gfx.clearCtx.shortVbarStorage
    ensures zgfx.Valid() && gfx.Valid() && fresh(gfx.surfaces.Arrays() - old(gfx.surfaces.Arrays()))
    ensures Turn(old(gfx.View()), old(zgfx.stream), message) == Turned(gfx.View(), zgfx.stream, acks)
  {
    hide Turn, DecodeMessage, ApplyMessage, GfxCodecs.ClientCodecs, GfxStates.GfxState.View, GfxStates.GfxState.Valid;
    hide ZgfxDecoder.ZgfxContext.Valid;
    TurnIs(gfx.View(), zgfx.stream, message);
    ghost var h := zgfx.stream;
    var plain := zgfx.Decompress(message);
    assert gfx.surfaces.Arrays() == old(gfx.surfaces.Arrays());
    if plain.Err? {
      return None;
    }
    assert zgfx.stream[|h|..] == plain.value;
    acks := gfx.ApplyMessage(plain.value);
  }

  lemma TurnIs(s: State, h: History, message: seq<Byte>)
    ensures var d := DecodeMessage(message, h);
            && h <= d.history
            && (!d.ok ==> Turn(s, h, message) == Turned(s, d.history, None))
            && (d.ok ==> Turn(s, h, message)
                         == Turned(ApplyMessage(s, d.history[|h|..]).0, d.history, ApplyMessage(s, d.history[|h|..]).1))
  {
    hide DecodeMessage, ApplyMessage;
    MessageExtends(message, h);
  }

  lemma ServeUnfolds(s: State, h: History, messages: seq<seq<Byte>>)
    ensures messages == [] ==> Serve(s, h, messages) == Served(s, h, [], true)
    ensures messages != [] ==>
              var t := Turn(s, h, messages[0]);
              && (t.acks.None? ==> Serve(s, h, messages) == Served(t.state, t.history, [], false))
              && (t.acks.Some? ==>
                    var rest := Serve(t.state, t.history, messages[1..]);
                    Serve(s, h, messages) == rest.(acks := t.acks.value + rest.acks))
  {
    hide Turn;
  }

  function After(acks: seq<Action>, rest: Served): Served {
    rest.(acks := acks + rest.acks)
  }

  lemma AfterMore(acks: seq<Action>, more: seq<Action>, rest: Served)
    ensures After(acks, rest.(acks := more + rest.acks)) == After(acks + more, rest)
    ensures After(acks, rest.(acks := [])) == rest.(acks := acks)
  {
    assert acks + (more + rest.acks) == (acks + more) + rest.acks && acks + [] == acks;
  }

  /** The next message that the wire brings for the channel, of those that are still to come. */
  method NextMessage(router: Router.ChannelRouter, wire: Router.Transport, id: U32, ghost left: seq<seq<Byte>>)
    returns (message: Option<seq<Byte>>)
    requires wire.Valid() && left == Router.Upcoming(router.View(), wire.packets, wire.pos, router.staticChannelId, id)
    modifies router, router.demux, router.dvc, wire
    ensures wire.Valid()
    ensures message.None? <==> left == []
    ensures message.Some? ==>
              && message.value == left[0]
              && left[1..] == Router.Upcoming(router.View(), wire.packets, wire.pos, router.staticChannelId, id)
  {
    hide Router.Upcoming, Router.Receive, Router.ChannelRouter.View;
    Router.ReceiveIsFifo(router.View(), wire.packets, wire.pos, router.staticChannelId, id);
    message := router.RecvDvcData(wire, id);
  }

  /**
   The loop itself: it serves every message that the wire still brings for the channel, or those
   up to the first that fails.
   */
  method ServeGraphics(router: Router.ChannelRouter, wire: Router.Transport, zgfx: ZgfxDecoder.ZgfxContext, gfx: GfxStates.GfxState,
                       id: U32)
    returns (acks: seq<Action>, ok: bool)
    requires wire.Valid() && zgfx.Valid() && gfx.Valid() && gfx.codecs == GfxCodecs.ClientCodecs()
    modifies router, router.demux, router.dvc, wire
    modifies zgfx`index, zgfx`stream, zgfx.history, gfx, gfx.surfaces, gfx.surfaces.Arrays(), gfx.progressiveCtx, gfx.clearCtx
    modifies gfx.clearCtx.glyphCache, gfx.clearCtx.vbarStorage, gfx.clearCtx.shortVbarStorage
    ensures wire.Valid() && zgfx.Valid() && gfx.Valid()
    ensures Serve(old(gfx.View()), old(zgfx.stream),
                  Router.Upcoming(old(router.View()), wire.packets, old(wire.pos), router.staticChannelId, id))
         == Served(gfx.View(), zgfx.stream, acks, ok)
  {
    hide Turn, Serve, After, Router.Upcoming, Router.Receive, GfxCodecs.ClientCodecs, GfxStates.GfxState.View, GfxStates.GfxState.Valid;
    hide ZgfxDecoder.ZgfxContext.Valid, Router.ChannelRouter.View;
    acks, ok := [], true;
    ghost var all := Router.Upcoming(router.View(), wire.packets, wire.pos, router.staticChannelId, id);
    ghost var goal := Serve(gfx.View(), zgfx.stream, all);
    ghost var left := all;
    AfterNothing(goal);
    while true
      invariant wire.Valid() && zgfx.Valid() && gfx.Valid() && fresh(gfx.surfaces.Arrays() - old(gfx.surfaces.Arrays())) && ok
      invariant left == Router.Upcoming(router.View(), wire.packets, wire.pos, router.staticChannelId, id)
      invariant goal == After(acks, Serve(gfx.View(), zgfx.stream, left))
      decreases |left|
    {
      ServeUnfolds(gfx.View(), zgfx.stream, left);
      ghost var before := gfx.surfaces.Arrays();
      var message := NextMessage(router, wire, id, left);
      assert gfx.surfaces.Arrays() == before;
      if message.None? {
        AfterMore(acks, [], Served(gfx.View(), zgfx.stream, [], true));
        return;
      }
      ghost var rest := left[1..];
      var more := ServeOne(message.value, zgfx, gfx);
      if more.None? {
        AfterMore(acks, [], Served(gfx.View(), zgfx.stream, [], false));
        ok := false;
        return;
      }
      AfterMore(acks, more.value, Serve(gfx.View(), zgfx.stream, rest));
      acks := acks + more.value;
      left := rest;
    }
  }

  lemma AfterNothing(rest: Served)
    ensures After([], rest) == rest
  {
    assert [] + rest.acks == rest.acks;
  }

  // ---------- From a sender's PDUs to the client's screen ----------

  /** Each compressed message means the framed PDUs of its batch, wherever in the history its matches point. */
  ghost predicate Carries(ms: seq<Message>, h: History, batches: seq<seq<Pdu>>)
    decreases |ms|
  {
    && |ms| == |batches|
    && (ms != [] ==>
          && MessageLegal(ms[0], h) && AllSendable(batches[0])
          && MeaningOfMessage(ms[0], h) == h + FrameAll(FramedPdus(batches[0]))
          && Carries(ms[1..], MeaningOfMessage(ms[0], h), batches[1..]))
  }

  function Joined(batches: seq<seq<Pdu>>): seq<Pdu> {
    if batches == [] then [] else batches[0] + Joined(batches[1..])
  }

  lemma {:induction false} CarriedIsLegal(ms: seq<Message>, h: History, batches: seq<seq<Pdu>>)
    requires Carries(ms, h, batches)
    ensures RunLegal(ms, h) && |EncodeRun(ms, h)| == |ms|
    decreases |ms|
  {
    hide MessageLegal, MeaningOfMessage, EncodeMessage;
    if ms != [] {
      CarriedIsLegal(ms[1..], MeaningOfMessage(ms[0], h), batches[1..]);
    }
  }

  lemma TurnAsSent(s: State, h: History, m: Message, pdus: seq<Pdu>)
    requires MessageLegal(m, h) && AllSendable(pdus) && MeaningOfMessage(m, h) == h + FrameAll(FramedPdus(pdus))
    ensures Turn(s, h, EncodeMessage(m, h)) == Turned(ApplyAll(s, pdus), MeaningOfMessage(m, h), Some(Actions(s, pdus)))
  {
    hide *;
    var plain := FrameAll(FramedPdus(pdus));
    ZgfxMessages.MessageRoundTrip(m, h);
    TurnIs(s, h, EncodeMessage(m, h));
    assert (h + plain)[|h|..] == plain;
    SentIsApplied(s, pdus);
  }

  /** The client ends up where the sender's PDUs lead, and acknowledges exactly its frames. */
  lemma {:induction false} ServesAsSent(s: State, h: History, ms: seq<Message>, batches: seq<seq<Pdu>>)
    requires Carries(ms, h, batches)
    ensures RunLegal(ms, h)
    ensures Serve(s, h, EncodeRun(ms, h))
         == Served(ApplyAll(s, Joined(batches)), MeaningOfRun(ms, h), Actions(s, Joined(batches)), true)
    decreases |ms|
  {
    CarriedIsLegal(ms, h, batches);
    hide EncodeMessage, MeaningOfMessage, MessageLegal, FrameAll, FramedPdus, AllSendable, Turn, Serve, ApplyAll, Actions;
    if ms == [] {
      NothingApplies(s);
      ServeUnfolds(s, h, []);
    } else {
      var h' := MeaningOfMessage(ms[0], h);
      var messages := EncodeRun(ms, h);
      assert messages[0] == EncodeMessage(ms[0], h) && messages[1..] == EncodeRun(ms[1..], h');
      TurnAsSent(s, h, ms[0], batches[0]);
      ServeUnfolds(s, h, messages);
      ServesAsSent(ApplyAll(s, batches[0]), h', ms[1..], batches[1..]);
      RunsJoin(s, batches[0], Joined(batches[1..]));
    }
  }

  lemma NothingApplies(s: State)
    ensures ApplyAll(s, []) == s && Actions(s, []) == []
  {
  }

  /**
   The whole receive path. A sender frames PDUs into messages, compresses them against one
   history, fragments them on a dynamic channel and chunks the fragments; any other
   PDUs that parse, and packets of other channels, may lie between them on the wire. The client
   that receives as many messages reaches the state these PDUs lead to, with one acknowledgement
   for each of their frames.
   */
  lemma DrawsWhatIsSent(wire: seq<VChannel.Packet>, channel: U16, r: Router.Route, stream: seq<seq<Byte>>, id: U32,
                        s: State, h: History, ms: seq<Message>, batches: seq<seq<Pdu>>)
    requires Carries(ms, h, batches) && RunLegal(ms, h) && DvcDelivery.Sendable(EncodeRun(ms, h))
    requires r.pending == [] && DvcDelivery.Idle(r.dvc, id)
    requires VChannel.On(wire, channel) == VChannel.AllChunks(stream) && forall m :: m in stream ==> DvcDelivery.Parses(m)
    requires DvcDelivery.For(stream, id) == DvcDelivery.AllFragments(id, EncodeRun(ms, h))
    ensures Serve(s, h, Router.ReceiveMany(r, wire, 0, channel, id, |ms|))
         == Served(ApplyAll(s, Joined(batches)), MeaningOfRun(ms, h), Actions(s, Joined(batches)), true)
  {
    hide *;
    CarriedIsLegal(ms, h, batches);
    Router.SentIsReceived(wire, channel, r, stream, id, EncodeRun(ms, h));
    ServesAsSent(s, h, ms, batches);
  }
}
