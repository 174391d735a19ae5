/** Delivery over dynamic channels: whatever is interleaved with them, each channel's messages arrive complete, once, and in order. */
module DvcDelivery {
  import opened Machine
  import opened Dvc
  import VChannel

  // ---------- What the receiver makes of a fragment ----------

  lemma HeaderParts(cmd: nat, field2: nat, cbId: nat)
    requires cmd < 16 && field2 < 4 && cbId < 4
    ensures var h := Header(cmd, field2, cbId);
            h / 16 == cmd && h / 4 % 4 == field2 && h % 4 == cbId
  {
  }

  lemma DataPduBack(id: U32, chunk: seq<Byte>)
    ensures var msg := DataPdu(id, chunk);
            && msg != [] && Command(msg) == CMD_DATA && ChannelOf(msg).Some? && ChannelOf(msg).value.0 == id
            && msg[ChannelOf(msg).value.1..] == chunk
  {
    hide WidthBytes, ReadWidth, WidthCode, Header;
    var msg := DataPdu(id, chunk);
    HeaderParts(CMD_DATA, 0, WidthCode(id));
    assert msg[1..] == WidthBytes(id, WidthCode(id)) + chunk;
    WidthBack(msg, 1, id, chunk);
  }

  lemma FirstPduBack(id: U32, total: U32, chunk: seq<Byte>)
    ensures var msg := FirstPdu(id, total, chunk);
            && msg != [] && Command(msg) == CMD_DATA_FIRST && ChannelOf(msg).Some? && ChannelOf(msg).value.0 == id
            && var length := ReadWidth(msg, ChannelOf(msg).value.1, msg[0] / 4 % 4);
               length.Some? && length.value.0 == total && msg[length.value.1..] == chunk
  {
    hide WidthBytes, ReadWidth, WidthCode, Header;
    var msg := FirstPdu(id, total, chunk);
    HeaderParts(CMD_DATA_FIRST, WidthCode(total), WidthCode(id));
    var rest := WidthBytes(total, WidthCode(total)) + chunk;
    assert msg[1..] == WidthBytes(id, WidthCode(id)) + rest;
    WidthBack(msg, 1, id, rest);
    WidthBack(msg, ChannelOf(msg).value.1, total, chunk);
  }

  lemma HandleDataPdu(s: State, id: U32, chunk: seq<Byte>)
    ensures Handle(s, DataPdu(id, chunk)) == HandleData(s, id, chunk)
  {
    DataPduBack(id, chunk);
    hide DataPdu, Command, ChannelOf, HandleData;
  }

  lemma HandleFirstPdu(s: State, id: U32, total: U32, chunk: seq<Byte>)
    ensures Handle(s, FirstPdu(id, total, chunk)) == HandleFirst(s, id, total, chunk)
  {
    FirstPduBack(id, total, chunk);
    hide FirstPdu, Command, ChannelOf, HandleFirst, ReadWidth;
  }

  // ---------- Streams of messages ----------

  /** A PDU that can change what is known of channel `id`: its data, its first fragment, or its end. */
  predicate Concerns(msg: seq<Byte>, id: U32) {
    msg != [] && (Command(msg) == CMD_DATA || Command(msg) == CMD_DATA_FIRST || Command(msg) == CMD_CLOSE)
    && ChannelOf(msg).Some? && ChannelOf(msg).value.0 == id
  }

  /** The PDUs that concern a channel, in order. */
  function For(stream: seq<seq<Byte>>, id: U32): seq<seq<Byte>> {
    if stream == [] then []
    else (if Concerns(stream[0], id) then [stream[0]] else []) + For(stream[1..], id)
  }

  /** Handles messages until one is refused. */
  function HandleAll(s: State, stream: seq<seq<Byte>>): (State, seq<Event>, bool)
    decreases |stream|
  {
    if stream == [] then (s, [], true)
    else
      var h := Handle(s, stream[0]);
      if !h.ok then (h.state, h.events, false)
      else
        var (s', more, ok) := HandleAll(h.state, stream[1..]);
        (s', h.events + more, ok)
  }

  /** The complete messages of a channel, in order. */
  function DataOf(events: seq<Event>, id: U32): seq<seq<Byte>> {
    if events == [] then []
    else (if events[0].Data? && events[0].id == id then [events[0].data] else []) + DataOf(events[1..], id)
  }

  lemma DataOfStep(events: seq<Event>, first: Event, rest: seq<Event>, id: U32)
    requires events == [first] + rest
    ensures DataOf(events, id) == (if first.Data? && first.id == id then [first.data] else []) + DataOf(rest, id)
  {
    assert events[1..] == rest;
  }

  lemma {:induction false} DataOfAppend(a: seq<Event>, b: seq<Event>, id: U32)
    ensures DataOf(a + b, id) == DataOf(a, id) + DataOf(b, id)
    decreases |a|
  {
    if a == [] {
      assert a + b == b;
    } else {
      DataOfAppend(a[1..], b, id);
      DataOfStep(a + b, a[0], a[1..] + b, id);
      DataOfStep(a, a[0], a[1..], id);
      hide DataOf;
    }
  }

  ghost predicate Sendable(msgs: seq<seq<Byte>>) {
    forall i :: 0 <= i < |msgs| ==> |msgs[i]| < 0x1_0000_0000
  }

  /** All fragments of a channel's messages. */
  function AllFragments(id: U32, msgs: seq<seq<Byte>>): seq<seq<Byte>>
    requires Sendable(msgs)
  {
    if msgs == [] then [] else Fragments(id, msgs[0]) + AllFragments(id, msgs[1..])
  }

  lemma OthersDoNotMatter(s: State, msg: seq<Byte>, id: U32)
    requires !Concerns(msg, id) && Handle(s, msg).ok
    ensures var h := Handle(s, msg);
            && (id in h.state.partial <==> id in s.partial) && (id in s.partial ==> h.state.partial[id] == s.partial[id])
            && DataOf(h.events, id) == []
  {
    hide ReadWidth, NameAt, Capabilities, CreateReply;
  }

  // ---------- One channel ----------

  /** The channel has no message in progress. */
  predicate Idle(s: State, id: U32) {
    id !in s.partial
  }

  /** The channel has received `data` up to `offset`. */
  ghost predicate Midway(s: State, id: U32, data: seq<Byte>, offset: nat)
    requires offset <= |data|
  {
    id in s.partial && s.partial[id] == Pending(|data|, data[..offset])
  }

  lemma RestStep(s: State, id: U32, data: seq<Byte>, offset: nat)
    requires offset < |data| && Midway(s, id, data, offset)
    ensures var end := EndOf(data, offset);
            var h := Handle(s, DataPdu(id, data[offset..end]));
            && h.ok && offset < end
            && (end < |data| ==> Midway(h.state, id, data, end) && h.events == [])
            && (end == |data| ==> Idle(h.state, id) && h.events == [Data(id, data)])
  {
    hide DataPdu, Handle;
    var end := EndOf(data, offset);
    HandleDataPdu(s, id, data[offset..end]);
    assert data[..offset] + data[offset..end] == data[..end];
    assert data[..|data|] == data;
  }

  lemma FirstStep(s: State, id: U32, data: seq<Byte>)
    requires Idle(s, id) && |data| < 0x1_0000_0000
    ensures var f := Fragments(id, data);
            var h := Handle(s, f[0]);
            && f != [] && h.ok
            && (|data| <= DATA_CHUNK ==> f == [f[0]] && Idle(h.state, id) && h.events == [Data(id, data)])
            && (|data| > DATA_CHUNK ==> f == [f[0]] + Rest(id, data, DATA_CHUNK) && Midway(h.state, id, data, DATA_CHUNK) && h.events == [])
  {
    hide DataPdu, FirstPdu, Handle, Rest;
    if |data| <= DATA_CHUNK {
      HandleDataPdu(s, id, data);
    } else {
      HandleFirstPdu(s, id, |data|, data[..DATA_CHUNK]);
    }
  }

  lemma StreamSplit(s: State, stream: seq<seq<Byte>>, id: U32)
    requires stream != [] && HandleAll(s, stream).2
    ensures var h := Handle(s, stream[0]);
            && h.ok && HandleAll(h.state, stream[1..]).2
            && DataOf(HandleAll(s, stream).1, id) == DataOf(h.events, id) + DataOf(HandleAll(h.state, stream[1..]).1, id)
  {
    hide Handle, DataOf;
    var h := Handle(s, stream[0]);
    if h.ok {
      DataOfAppend(h.events, HandleAll(h.state, stream[1..]).1, id);
    }
  }

  lemma OneEvent(id: U32, data: seq<Byte>)
    ensures DataOf([Data(id, data)], id) == [data] && DataOf([], id) == []
  {
    assert [Data(id, data)][1..] == [];
  }

  /** From the middle of a message on. */
  lemma {:induction false} DeliversFrom(s: State, stream: seq<seq<Byte>>, id: U32, data: seq<Byte>, offset: nat, msgs: seq<seq<Byte>>)
    requires offset < |data| && Midway(s, id, data, offset) && Sendable(msgs)
    requires For(stream, id) == Rest(id, data, offset) + AllFragments(id, msgs) && HandleAll(s, stream).2
    ensures DataOf(HandleAll(s, stream).1, id) == [data] + msgs
    decreases |stream|
  {
    hide Handle, HandleAll, DataPdu, Concerns, DataOf, Fragments;
    var msg, rest := stream[0], stream[1..];
    var h := Handle(s, msg);
    StreamSplit(s, stream, id);
    OneEvent(id, data);
    if !Concerns(msg, id) {
      OthersDoNotMatter(s, msg, id);
      assert For(stream, id) == For(rest, id);
      DeliversFrom(h.state, rest, id, data, offset, msgs);
      assert [] + ([data] + msgs) == [data] + msgs;
    } else {
      var end := EndOf(data, offset);
      var head, more := DataPdu(id, data[offset..end]), Rest(id, data, end) + AllFragments(id, msgs);
      assert Rest(id, data, offset) + AllFragments(id, msgs) == [head] + more;
      assert For(stream, id) == [msg] + For(rest, id);
      SameFront(msg, For(rest, id), head, more);
      RestStep(s, id, data, offset);
      if end < |data| {
        DeliversFrom(h.state, rest, id, data, end, msgs);
        assert [] + ([data] + msgs) == [data] + msgs;
      } else {
        assert more == AllFragments(id, msgs);
        DeliversAll(h.state, rest, id, msgs);
      }
    }
  }

  lemma SameFront<T>(a: T, s: seq<T>, b: T, t: seq<T>)
    requires [a] + s == [b] + t
    ensures a == b && s == t
  {
    assert ([a] + s)[0] == a && ([b] + t)[0] == b;
    assert ([a] + s)[1..] == s && ([b] + t)[1..] == t;
  }

  /**
   Delivery under any interleaving: if the PDUs that concern a channel are the fragments of its
   messages, in order, then these messages are delivered, complete and once, whatever else arrives in between.
   */
  lemma {:induction false} DeliversAll(s: State, stream: seq<seq<Byte>>, id: U32, msgs: seq<seq<Byte>>)
    requires Idle(s, id) && Sendable(msgs) && For(stream, id) == AllFragments(id, msgs) && HandleAll(s, stream).2
    ensures DataOf(HandleAll(s, stream).1, id) == msgs
    decreases |stream|
  {
    hide Handle, Concerns, DataOf, Fragments;
    if stream == [] {
      NoFragments(id, msgs);
      OneEvent(id, []);
    } else {
      var msg, rest := stream[0], stream[1..];
      var h := Handle(s, msg);
      StreamSplit(s, stream, id);
      if !Concerns(msg, id) {
        OthersDoNotMatter(s, msg, id);
        assert For(stream, id) == For(rest, id);
        DeliversAll(h.state, rest, id, msgs);
        assert [] + msgs == msgs;
      } else {
        assert For(stream, id) == [msg] + For(rest, id);
        DeliversNext(s, stream, id, msgs);
      }
    }
  }

  lemma NoFragments(id: U32, msgs: seq<seq<Byte>>)
    requires Sendable(msgs) && AllFragments(id, msgs) == []
    ensures msgs == []
  {
    hide DataPdu, FirstPdu;
  }

  lemma {:induction false} DeliversNext(s: State, stream: seq<seq<Byte>>, id: U32, msgs: seq<seq<Byte>>)
    requires stream != [] && Concerns(stream[0], id) && Idle(s, id) && Sendable(msgs)
    requires For(stream, id) == AllFragments(id, msgs) && HandleAll(s, stream).2
    ensures DataOf(HandleAll(s, stream).1, id) == msgs
    decreases |stream|, 0
  {
    hide Handle, HandleAll, Concerns, DataOf, Fragments, Rest;
    var msg, rest := stream[0], stream[1..];
    var h := Handle(s, msg);
    assert For(stream, id) == [msg] + For(rest, id);
    var data, others := msgs[0], msgs[1..];
    assert [data] + others == msgs;
    StreamSplit(s, stream, id);
    FirstStep(s, id, data);
    OneEvent(id, data);
    var f := Fragments(id, data);
    if |data| <= DATA_CHUNK {
      assert AllFragments(id, msgs) == [f[0]] + AllFragments(id, others);
      SameFront(msg, For(rest, id), f[0], AllFragments(id, others));
      DeliversAll(h.state, rest, id, others);
    } else {
      var more := Rest(id, data, DATA_CHUNK) + AllFragments(id, others);
      assert AllFragments(id, msgs) == [f[0]] + more;
      SameFront(msg, For(rest, id), f[0], more);
      DeliversFrom(h.state, rest, id, data, DATA_CHUNK, others);
      assert [] + ([data] + others) == [data] + others;
    }
  }

  // ---------- What is refused ----------

  /** The fields that a PDU of its kind must have are there; a kind the client does not know needs none. */
  predicate Parses(msg: seq<Byte>) {
    msg == [] ||
    (if Command(msg) == CMD_CAPABILITY then |msg| >= 4
     else if Command(msg) == CMD_CREATE || Command(msg) == CMD_DATA || Command(msg) == CMD_CLOSE then ChannelOf(msg).Some?
     else if Command(msg) == CMD_DATA_FIRST then
       ChannelOf(msg).Some? && ReadWidth(msg, ChannelOf(msg).value.1, msg[0] / 4 % 4).Some?
     else true)
  }

  /** Whether a PDU is refused depends on nothing but the PDU. */
  lemma HandledIfParsed(s: State, msg: seq<Byte>)
    ensures Handle(s, msg).ok <==> Parses(msg)
  {
    hide ReadWidth, NameAt, Capabilities, CreateReply;
  }

  lemma {:induction false} AllHandledIfParsed(s: State, stream: seq<seq<Byte>>)
    ensures HandleAll(s, stream).2 <==> forall m :: m in stream ==> Parses(m)
    decreases |stream|
  {
    hide Handle, Parses;
    if stream != [] {
      HandledIfParsed(s, stream[0]);
      AllHandledIfParsed(Handle(s, stream[0]).state, stream[1..]);
      assert stream == [stream[0]] + stream[1..];
    }
  }

  lemma {:induction false} RestParses(id: U32, data: seq<Byte>, offset: nat)
    requires offset <= |data|
    ensures forall f :: f in Rest(id, data, offset) ==> Parses(f)
    decreases |data| - offset
  {
    hide DataPdu, ReadWidth;
    if offset < |data| {
      DataPduBack(id, data[offset..EndOf(data, offset)]);
      RestParses(id, data, EndOf(data, offset));
    }
  }

  lemma FragmentsParse(id: U32, data: seq<Byte>)
    requires |data| < 0x1_0000_0000
    ensures forall f :: f in Fragments(id, data) ==> Parses(f)
  {
    hide DataPdu, FirstPdu, ReadWidth;
    if |data| <= DATA_CHUNK {
      DataPduBack(id, data);
    } else {
      FirstPduBack(id, |data|, data[..DATA_CHUNK]);
      RestParses(id, data, DATA_CHUNK);
    }
  }

  /** Every PDU is a fragment of some message of some channel. */
  ghost predicate AreFragments(stream: seq<seq<Byte>>) {
    forall m :: m in stream ==> exists id: U32, data: seq<Byte> :: |data| < 0x1_0000_0000 && m in Fragments(id, data)
  }

  /** So nothing that senders fragment is ever refused. */
  lemma AllFragmentsParse(stream: seq<seq<Byte>>)
    requires AreFragments(stream)
    ensures forall m :: m in stream ==> Parses(m)
  {
    hide Parses, Fragments;
    forall m | m in stream
      ensures Parses(m)
    {
      var id: U32, data: seq<Byte> :| |data| < 0x1_0000_0000 && m in Fragments(id, data);
      FragmentsParse(id, data);
    }
  }

  // ---------- Through both layers ----------

  lemma {:induction false} AllFragmentsFit(id: U32, msgs: seq<seq<Byte>>)
    requires Sendable(msgs)
    ensures forall f :: f in AllFragments(id, msgs) ==> Fits(f)
    decreases |msgs|
  {
    hide Fragments;
    if msgs != [] {
      FragmentsFit(id, msgs[0]);
      AllFragmentsFit(id, msgs[1..]);
    }
  }

  /** PDUs that fit are one packet each, so packets of different dynamic channels may be interleaved freely. */
  lemma {:induction false} OnePacketEach(stream: seq<seq<Byte>>, i: nat)
    requires i < |stream| && forall f :: f in stream ==> Fits(f)
    ensures |VChannel.AllChunks(stream)| == |stream| && VChannel.AllChunks(stream)[i] == VChannel.ChunkAt(stream[i], 0)
    decreases |stream|
  {
    hide VChannel.Chunks, VChannel.ChunkAt;
    OneChunk(stream[0]);
    if i > 0 {
      OnePacketEach(stream[1..], i - 1);
    } else if |stream| > 1 {
      OnePacketEach(stream[1..], 0);
    }
  }

  /**
   Both layers together. The packets of the static channel are the chunks of some stream of PDUs;
   in that stream the fragments of each dynamic channel are in order. Then the receiver delivers
   every message of the dynamic channel, whatever other static and dynamic channels interleave with it,
   as long as their packets and PDUs have the fields they must have.
   */
  lemma EndToEnd(wire: seq<VChannel.Packet>, channel: U16, d: VChannel.Demux, s: State, stream: seq<seq<Byte>>, id: U32, msgs: seq<seq<Byte>>)
    requires VChannel.On(wire, channel) == VChannel.AllChunks(stream) && forall p :: p in wire ==> |p.payload| >= VChannel.HEADER
    requires Idle(s, id) && Sendable(msgs) && For(stream, id) == AllFragments(id, msgs)
    requires forall m :: m in stream ==> Parses(m)
    ensures var received := VChannel.MessagesOf(VChannel.FeedAll(d, wire).1, channel);
            DataOf(HandleAll(s, received).1, id) == msgs
  {
    VChannel.FedUnlessShort(d, wire);
    AllHandledIfParsed(s, stream);
    VChannel.DeliversAll(d, wire, channel, stream);
    DeliversAll(s, stream, id, msgs);
  }
}
