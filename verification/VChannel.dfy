/** `vchannel.rs`: chunking of static virtual channel messages (section 2.2.6.1.1 of MS-RDPBCGR) and their reassembly. */
module VChannel {
  import opened Machine
  import opened Bytes

  const CHUNK_SIZE := 1600
  const FLAG_FIRST := 1
  const FLAG_LAST := 2
  const HEADER := 8

  /** What the transport carries: a channel and a payload. */
  datatype Packet = Packet(channel: U16, payload: seq<Byte>)

  // ---------- Sending ----------

  function EndOf(data: seq<Byte>, offset: nat): (r: nat)
    requires offset <= |data|
    ensures offset <= r <= |data|
  {
    Min(offset + CHUNK_SIZE, |data|)
  }

  function FlagsAt(data: seq<Byte>, offset: nat): U32
    requires offset <= |data|
  {
    (if offset == 0 then FLAG_FIRST else 0) + (if EndOf(data, offset) == |data| then FLAG_LAST else 0)
  }

  function ChunkAt(data: seq<Byte>, offset: nat): seq<Byte>
    requires offset <= |data|
  {
    Le32Bytes(|data| % 0x1_0000_0000) + (Le32Bytes(FlagsAt(data, offset)) + data[offset..EndOf(data, offset)])
  }

  /** The chunks from `offset` on; an empty message still takes one. */
  function Chunks(data: seq<Byte>, offset: nat): (r: seq<seq<Byte>>)
    requires offset <= |data|
    ensures r != []
    decreases |data| - offset
  {
    var end := EndOf(data, offset);
    [ChunkAt(data, offset)] + if end < |data| then Chunks(data, end) else []
  }

  lemma ChunksStep(data: seq<Byte>, offset: nat)
    requires offset <= |data|
    ensures var end := EndOf(data, offset);
            Chunks(data, offset) == [ChunkAt(data, offset)] + if end < |data| then Chunks(data, end) else []
  {
    hide ChunkAt;
  }

  method Send(data: seq<Byte>) returns (sent: seq<seq<Byte>>)
    ensures sent == Chunks(data, 0)
  {
    hide Le32Bytes, Chunks;
    var offset: nat := 0;
    sent := [];
    assert [] + Chunks(data, 0) == Chunks(data, 0);
    var done := false;
    while !done
      invariant offset <= |data|
      invariant Chunks(data, 0) == sent + if done then [] else Chunks(data, offset)
      decreases !done, |data| - offset
    {
      ChunksStep(data, offset);
      var end := Min(offset + CHUNK_SIZE, |data|);
      var flags: nat := 0;
      if offset == 0 {
        flags := flags + FLAG_FIRST;
      }
      if end == |data| {
        flags := flags + FLAG_LAST;
      }
      sent := sent + [Le32Bytes(|data| % 0x1_0000_0000) + (Le32Bytes(flags) + data[offset..end])];
      offset := end;
      if offset >= |data| {
        done := true;
      }
    }
  }

  // ---------- Receiving ----------

  /** A message in progress; the announced length is kept but decides nothing. */
  datatype Partial = Partial(length: nat, data: seq<Byte>)

  type Demux = map<U16, Partial>

  predicate HasFlag(flags: U32, flag: nat)
    requires flag > 0
  {
    flags / flag % 2 == 1
  }

  function Payload32(p: seq<Byte>, at: nat): U32
    requires at + 4 <= |p|
  {
    Le32(p[at], p[at + 1], p[at + 2], p[at + 3])
  }

  /** The message in progress once a chunk has been added. */
  function Extended(d: Demux, channel: U16, payload: seq<Byte>): Partial
    requires |payload| >= HEADER
  {
    var before := if channel in d then d[channel] else Partial(0, []);
    var start := if HasFlag(Payload32(payload, 4), FLAG_FIRST) then Partial(Payload32(payload, 0), []) else before;
    start.(data := start.data + payload[HEADER..])
  }

  /** One chunk; a message comes out behind its last one. Too short a payload is an error. */
  function Fed(d: Demux, p: Packet): (Demux, Result<Option<seq<Byte>>>) {
    if |p.payload| < HEADER then (d, Err)
    else
      var e := Extended(d, p.channel, p.payload);
      if HasFlag(Payload32(p.payload, 4), FLAG_LAST) then (d - {p.channel}, Ok(Some(e.data))) else (d[p.channel := e], Ok(None))
  }

  class ChannelDemux {
    var partial: Demux

    constructor ()
      ensures partial == map[]
    {
      partial := map[];
    }

    method Feed(channel: U16, payload: seq<Byte>) returns (r: Result<Option<seq<Byte>>>)
      modifies this
      ensures (partial, r) == Fed(old(partial), Packet(channel, payload))
    {
      hide Payload32;
      if |payload| < HEADER {
        return Err;
      }
      var flags, chunk := Payload32(payload, 4), payload[HEADER..];
      var entry := if channel in partial then partial[channel] else Partial(0, []);
      if HasFlag(flags, FLAG_FIRST) {
        entry := Partial(Payload32(payload, 0), []);
      }
      entry := entry.(data := entry.data + chunk);
      if HasFlag(flags, FLAG_LAST) {
        partial := partial - {channel};
        return Ok(Some(entry.data));
      }
      partial := partial[channel := entry];
      return Ok(None);
    }
  }

  // ---------- A channel does not notice the others ----------

  datatype Delivered = Delivered(channel: U16, data: seq<Byte>)

  /** Feeds packets until one is refused. */
  function FeedAll(d: Demux, wire: seq<Packet>): (Demux, seq<Delivered>, bool)
    decreases |wire|
  {
    if wire == [] then (d, [], true)
    else
      var (d', r) := Fed(d, wire[0]);
      match r
      case Err => (d', [], false)
      case Ok(out) =>
        var (d'', more, ok) := FeedAll(d', wire[1..]);
        (d'', (if out.Some? then [Delivered(wire[0].channel, out.value)] else []) + more, ok)
  }

  /** The payloads of one channel, in order. */
  function On(wire: seq<Packet>, channel: U16): seq<seq<Byte>> {
    if wire == [] then []
    else (if wire[0].channel == channel then [wire[0].payload] else []) + On(wire[1..], channel)
  }

  function MessagesOf(out: seq<Delivered>, channel: U16): seq<seq<Byte>> {
    if out == [] then []
    else (if out[0].channel == channel then [out[0].data] else []) + MessagesOf(out[1..], channel)
  }

  function AllChunks(msgs: seq<seq<Byte>>): seq<seq<Byte>> {
    if msgs == [] then [] else Chunks(msgs[0], 0) + AllChunks(msgs[1..])
  }

  // ---------- Reassembly under any interleaving ----------

  lemma ChunkBack(data: seq<Byte>, offset: nat)
    requires offset <= |data|
    ensures var c := ChunkAt(data, offset);
            && |c| >= HEADER && Payload32(c, 4) == FlagsAt(data, offset)
            && c[HEADER..] == data[offset..EndOf(data, offset)]
  {
    hide Le32, Le32Bytes;
    var c := ChunkAt(data, offset);
    var rest := data[offset..EndOf(data, offset)];
    assert c[0..] == c;
    U32Back(c, 0, |data| % 0x1_0000_0000, Le32Bytes(FlagsAt(data, offset)) + rest);
    U32Back(c, 4, FlagsAt(data, offset), rest);
  }

  /** What the demultiplexer holds of a message once its chunks before `offset` are in. */
  ghost predicate HoldsUpTo(d: Demux, channel: U16, data: seq<Byte>, offset: nat)
    requires offset <= |data|
  {
    offset > 0 ==> channel in d && d[channel].data == data[..offset]
  }

  lemma ChunkStep(d: Demux, channel: U16, data: seq<Byte>, offset: nat)
    requires offset <= |data| && HoldsUpTo(d, channel, data, offset)
    ensures var (d', r) := Fed(d, Packet(channel, ChunkAt(data, offset)));
            var end := EndOf(data, offset);
            && r == Ok(if end == |data| then Some(data) else None)
            && (end < |data| ==> HoldsUpTo(d', channel, data, end))
            && (end == |data| ==> channel !in d')
  {
    hide ChunkAt, Payload32, FlagsAt, EndOf, Extended, HasFlag, Fed;
    var c := ChunkAt(data, offset);
    ChunkBack(data, offset);
    FlagsAre(data, offset);
    ExtendedData(d, channel, c, data, offset);
    FedIs(d, channel, c, EndOf(data, offset) == |data|);
    WholeMessage(data);
  }

  lemma FedIs(d: Demux, channel: U16, c: seq<Byte>, last: bool)
    requires |c| >= HEADER && (HasFlag(Payload32(c, 4), FLAG_LAST) <==> last)
    ensures var e := Extended(d, channel, c);
            Fed(d, Packet(channel, c)) == if last then (d - {channel}, Ok(Some(e.data))) else (d[channel := e], Ok(None))
  {
    hide Payload32, Extended, HasFlag;
  }

  lemma WholeMessage(data: seq<Byte>)
    ensures data[..|data|] == data
  {
  }

  lemma ExtendedData(d: Demux, channel: U16, c: seq<Byte>, data: seq<Byte>, offset: nat)
    requires offset <= |data| && HoldsUpTo(d, channel, data, offset) && |c| >= HEADER
    requires c[HEADER..] == data[offset..EndOf(data, offset)] && (HasFlag(Payload32(c, 4), FLAG_FIRST) <==> offset == 0)
    ensures Extended(d, channel, c).data == data[..EndOf(data, offset)]
  {
    hide HasFlag, Payload32, EndOf;
    var end := EndOf(data, offset);
    if offset == 0 {
      assert [] + data[0..end] == data[..end];
    } else {
      assert data[..offset] + data[offset..end] == data[..end];
    }
  }

  lemma FlagsAre(data: seq<Byte>, offset: nat)
    requires offset <= |data|
    ensures HasFlag(FlagsAt(data, offset), FLAG_FIRST) <==> offset == 0
    ensures HasFlag(FlagsAt(data, offset), FLAG_LAST) <==> EndOf(data, offset) == |data|
  {
  }

  lemma OthersDoNotMatter(d: Demux, p: Packet, channel: U16)
    requires p.channel != channel
    ensures var d' := Fed(d, p).0;
            (channel in d' <==> channel in d) && (channel in d ==> d'[channel] == d[channel])
  {
    hide Extended, Payload32;
  }

  /**
   From the middle of a message on: whatever packets of other channels lie in between, the
   channel's messages come out complete, once, and in order.
   */
  lemma {:induction false} DeliversFrom(d: Demux, wire: seq<Packet>, channel: U16, data: seq<Byte>, offset: nat, msgs: seq<seq<Byte>>)
    requires offset <= |data| && HoldsUpTo(d, channel, data, offset)
    requires On(wire, channel) == Chunks(data, offset) + AllChunks(msgs) && FeedAll(d, wire).2
    ensures MessagesOf(FeedAll(d, wire).1, channel) == [data] + msgs
    decreases |wire|
  {
    hide Fed, ChunkAt;
    var p := wire[0];
    var (d', r) := Fed(d, p);
    var rest := wire[1..];
    OutputSplit(d, wire, channel);
    if p.channel != channel {
      OthersDoNotMatter(d, p, channel);
      assert On(wire, channel) == On(rest, channel);
      DeliversFrom(d', rest, channel, data, offset, msgs);
    } else {
      var end := EndOf(data, offset);
      var more := if end < |data| then Chunks(data, end) else [];
      assert On(wire, channel) == [p.payload] + On(rest, channel);
      assert Chunks(data, offset) + AllChunks(msgs) == [ChunkAt(data, offset)] + (more + AllChunks(msgs));
      assert On(wire, channel)[0] == p.payload == ChunkAt(data, offset);
      assert On(wire, channel)[1..] == On(rest, channel) == more + AllChunks(msgs);
      ChunkStep(d, channel, data, offset);
      if end < |data| {
        DeliversFrom(d', rest, channel, data, end, msgs);
      } else {
        assert more + AllChunks(msgs) == AllChunks(msgs);
        DeliversAll(d', rest, channel, msgs);
      }
    }
  }

  lemma OutputSplit(d: Demux, wire: seq<Packet>, channel: U16)
    requires wire != [] && FeedAll(d, wire).2
    ensures var (d', r) := Fed(d, wire[0]);
            && r.Ok? && FeedAll(d', wire[1..]).2
            && MessagesOf(FeedAll(d, wire).1, channel)
               == (if r.value.Some? && wire[0].channel == channel then [r.value.value] else []) + MessagesOf(FeedAll(d', wire[1..]).1, channel)
  {
    hide Fed;
    var (d', r) := Fed(d, wire[0]);
    var more := FeedAll(d', wire[1..]).1;
    if r.Ok? && r.value.Some? {
      var first := Delivered(wire[0].channel, r.value.value);
      assert ([first] + more)[1..] == more;
    } else {
      assert [] + more == more;
    }
  }

  /** Reassembly under any interleaving, from a state in which the channel has no message in progress. */
  lemma {:induction false} DeliversAll(d: Demux, wire: seq<Packet>, channel: U16, msgs: seq<seq<Byte>>)
    requires On(wire, channel) == AllChunks(msgs) && FeedAll(d, wire).2
    ensures MessagesOf(FeedAll(d, wire).1, channel) == msgs
    decreases |wire|
  {
    hide Fed, Chunks;
    if wire == [] {
      SomeChunks(msgs);
    } else if msgs == [] {
      var d' := Fed(d, wire[0]).0;
      OutputSplit(d, wire, channel);
      assert On(wire, channel) == [];
      DeliversAll(d', wire[1..], channel, []);
    } else {
      DeliversStart(d, wire, channel, msgs);
    }
  }

  lemma SomeChunks(msgs: seq<seq<Byte>>)
    ensures msgs != [] ==> AllChunks(msgs) != []
  {
  }

  lemma {:induction false} DeliversStart(d: Demux, wire: seq<Packet>, channel: U16, msgs: seq<seq<Byte>>)
    requires wire != [] && msgs != [] && On(wire, channel) == AllChunks(msgs) && FeedAll(d, wire).2
    ensures MessagesOf(FeedAll(d, wire).1, channel) == msgs
    decreases |wire|, 0
  {
    hide Fed, ChunkAt;
    var p, data := wire[0], msgs[0];
    var d' := Fed(d, p).0;
    OutputSplit(d, wire, channel);
    if p.channel != channel {
      assert On(wire, channel) == On(wire[1..], channel);
      DeliversAll(d', wire[1..], channel, msgs);
    } else {
      var end := EndOf(data, 0);
      var more := if end < |data| then Chunks(data, end) else [];
      assert AllChunks(msgs) == [ChunkAt(data, 0)] + (more + AllChunks(msgs[1..]));
      assert On(wire, channel) == [p.payload] + On(wire[1..], channel);
      assert On(wire, channel)[0] == p.payload == ChunkAt(data, 0);
      assert On(wire, channel)[1..] == On(wire[1..], channel) == more + AllChunks(msgs[1..]);
      ChunkStep(d, channel, data, 0);
      assert [data] + msgs[1..] == msgs;
      if end < |data| {
        DeliversFrom(d', wire[1..], channel, data, end, msgs[1..]);
      } else {
        assert more + AllChunks(msgs[1..]) == AllChunks(msgs[1..]);
        DeliversAll(d', wire[1..], channel, msgs[1..]);
      }
    }
  }

  // ---------- What is refused ----------

  /** Only a packet too short for its header is refused. */
  lemma {:induction false} FedUnlessShort(d: Demux, wire: seq<Packet>)
    ensures FeedAll(d, wire).2 <==> forall p :: p in wire ==> |p.payload| >= HEADER
    decreases |wire|
  {
    hide Extended, HasFlag, Payload32;
    if wire != [] {
      FedUnlessShort(Fed(d, wire[0]).0, wire[1..]);
      assert wire == [wire[0]] + wire[1..];
    }
  }

  lemma {:induction false} ChunksAreLong(data: seq<Byte>, offset: nat)
    requires offset <= |data|
    ensures forall c :: c in Chunks(data, offset) ==> |c| >= HEADER
    decreases |data| - offset
  {
    var end := EndOf(data, offset);
    ChunkBack(data, offset);
    hide ChunkAt;
    if end < |data| {
      ChunksAreLong(data, end);
    }
  }

  lemma {:induction false} AllChunksAreLong(msgs: seq<seq<Byte>>)
    ensures forall c :: c in AllChunks(msgs) ==> |c| >= HEADER
    decreases |msgs|
  {
    hide Chunks;
    if msgs != [] {
      ChunksAreLong(msgs[0], 0);
      AllChunksAreLong(msgs[1..]);
    }
  }
}
