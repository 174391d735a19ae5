/** `ChannelRouter` of `session.rs`: the queue between the transport and whoever waits for a dynamic channel. */
module Router {
  import opened Machine
  import opened VChannel
  import D = Dvc
  import opened DvcDelivery

  /** More messages than this for channels nobody waits for are dropped. */
  const PURGE_ABOVE := 64

  datatype Queued = Queued(id: U32, data: seq<Byte>)

  datatype Route = Route(demux: Demux, dvc: D.State, pending: seq<Queued>)

  function QueueOf(events: seq<D.Event>): seq<Queued> {
    if events == [] then []
    else (if events[0].Data? then [Queued(events[0].id, events[0].data)] else []) + QueueOf(events[1..])
  }

  /** One packet of the dynamic channels' static channel; false after an error. */
  function Chunk(r: Route, channel: U16, payload: seq<Byte>): (Route, bool) {
    var (demux, out) := Fed(r.demux, Packet(channel, payload));
    match out
    case Err => (r.(demux := demux), false)
    case Ok(None) => (r.(demux := demux), true)
    case Ok(Some(msg)) =>
      var h := D.Handle(r.dvc, msg);
      (Route(demux, h.state, if h.ok then r.pending + QueueOf(h.events) else r.pending), h.ok)
  }

  /** The queued messages of one channel. */
  function Only(q: seq<Queued>, id: U32): seq<Queued> {
    if q == [] then [] else (if q[0].id == id then [q[0]] else []) + Only(q[1..], id)
  }

  function Purged(q: seq<Queued>, id: U32): seq<Queued> {
    if |q| > PURGE_ABOVE then Only(q, id) else q
  }

  /** Where the first message of a channel is in the queue. */
  function Position(q: seq<Queued>, id: U32): (i: Option<nat>)
    ensures i.Some? ==> i.value < |q| && q[i.value].id == id && forall j :: 0 <= j < i.value ==> q[j].id != id
    ensures i.None? ==> forall j :: 0 <= j < |q| ==> q[j].id != id
  {
    if q == [] then None
    else if q[0].id == id then Some(0)
    else
      match Position(q[1..], id)
      case None => None
      case Some(i) => Some(i + 1)
  }

  /** What a receive leads to: the message, the router behind it, and how much of the wire has been read. */
  datatype Received = Received(data: Option<seq<Byte>>, route: Route, pos: nat)

  /** Waits for the next message of channel `id`; no message if the wire ends or an error comes first. */
  function Receive(r: Route, wire: seq<Packet>, pos: nat, channel: U16, id: U32): (x: Received)
    requires pos <= |wire|
    ensures pos <= x.pos <= |wire|
    decreases |wire| - pos
  {
    match Position(r.pending, id)
    case Some(i) => Received(Some(r.pending[i].data), r.(pending := r.pending[..i] + r.pending[i + 1..]), pos)
    case None =>
      var r' := r.(pending := Purged(r.pending, id));
      if pos == |wire| then Received(None, r', pos)
      else if wire[pos].channel != channel then Receive(r', wire, pos + 1, channel, id)
      else
        var (next, ok) := Chunk(r', channel, wire[pos].payload);
        if ok then Receive(next, wire, pos + 1, channel, id) else Received(None, next, pos + 1)
  }

  // ---------- The queue is first in, first out for each channel ----------

  /** Everything the router will hand out for channel `id`: what is queued, then what the rest of the wire brings. */
  function Upcoming(r: Route, wire: seq<Packet>, pos: nat, channel: U16, id: U32): seq<seq<Byte>>
    requires pos <= |wire|
    decreases |wire| - pos
  {
    Texts(Only(r.pending, id)) + Arriving(r, wire, pos, channel, id)
  }

  function Texts(q: seq<Queued>): seq<seq<Byte>> {
    if q == [] then [] else [q[0].data] + Texts(q[1..])
  }

  /** The messages of channel `id` that the rest of the wire brings, up to an error. */
  function Arriving(r: Route, wire: seq<Packet>, pos: nat, channel: U16, id: U32): seq<seq<Byte>>
    requires pos <= |wire|
    decreases |wire| - pos
  {
    if pos == |wire| then []
    else if wire[pos].channel != channel then Arriving(r, wire, pos + 1, channel, id)
    else
      var (next, ok) := Chunk(r.(pending := []), channel, wire[pos].payload);
      if ok then Texts(Only(next.pending, id)) + Arriving(next, wire, pos + 1, channel, id) else []
  }

  lemma OnlyFront(first: Queued, rest: seq<Queued>, id: U32)
    ensures Only([first] + rest, id) == (if first.id == id then [first] else []) + Only(rest, id)
  {
    assert ([first] + rest)[1..] == rest;
  }

  lemma {:induction false} OnlyAppend(a: seq<Queued>, b: seq<Queued>, id: U32)
    ensures Only(a + b, id) == Only(a, id) + Only(b, id)
    decreases |a|
  {
    if a == [] {
      assert a + b == b;
    } else {
      OnlyAppend(a[1..], b, id);
      assert a + b == [a[0]] + (a[1..] + b) && a == [a[0]] + a[1..];
      OnlyFront(a[0], a[1..] + b, id);
      OnlyFront(a[0], a[1..], id);
      hide Only;
    }
  }

  lemma {:induction false} TextsAppend(a: seq<Queued>, b: seq<Queued>)
    ensures Texts(a + b) == Texts(a) + Texts(b)
    decreases |a|
  {
    if a == [] {
      assert a + b == b;
    } else {
      TextsAppend(a[1..], b);
      assert (a + b)[1..] == a[1..] + b;
    }
  }

  lemma {:induction false} OnlyTwice(q: seq<Queued>, id: U32)
    ensures Only(Only(q, id), id) == Only(q, id)
    decreases |q|
  {
    if q != [] {
      OnlyTwice(q[1..], id);
      if q[0].id == id {
        assert ([q[0]] + Only(q[1..], id))[1..] == Only(q[1..], id);
      } else {
        assert [] + Only(q[1..], id) == Only(q[1..], id);
      }
    }
  }

  /** A purge never drops a message of the channel that is waited for. */
  lemma PurgeKeepsOwn(q: seq<Queued>, id: U32)
    ensures Only(Purged(q, id), id) == Only(q, id)
  {
    OnlyTwice(q, id);
  }

  /** What arrives does not depend on what is queued. */
  lemma {:induction false} ArrivingIgnoresQueue(r: Route, q: seq<Queued>, wire: seq<Packet>, pos: nat, channel: U16, id: U32)
    requires pos <= |wire|
    ensures Arriving(r.(pending := q), wire, pos, channel, id) == Arriving(r, wire, pos, channel, id)
    decreases |wire| - pos
  {
    hide Chunk;
    if pos < |wire| && wire[pos].channel != channel {
      ArrivingIgnoresQueue(r, q, wire, pos + 1, channel, id);
    }
  }

  lemma ChunkQueues(r: Route, channel: U16, payload: seq<Byte>)
    ensures var (a, ok), (b, ok') := Chunk(r, channel, payload), Chunk(r.(pending := []), channel, payload);
            && ok == ok' && a.demux == b.demux && a.dvc == b.dvc
            && (ok ==> a.pending == r.pending + b.pending)
  {
    hide Fed, D.Handle, QueueOf;
    var (demux, out) := Fed(r.demux, Packet(channel, payload));
    if out.Ok? && out.value.Some? {
      var h := D.Handle(r.dvc, out.value.value);
      assert [] + QueueOf(h.events) == QueueOf(h.events);
    }
  }

  lemma RemovedBehindFront(q: seq<Queued>, i: nat)
    requires i + 1 < |q|
    ensures q[..i + 1] + q[i + 2..] == [q[0]] + (q[1..][..i] + q[1..][i + 1..]) && q[1..][i] == q[i + 1]
  {
  }

  lemma {:induction false} FirstOfChannel(q: seq<Queued>, id: U32)
    ensures match Position(q, id)
            case None => Only(q, id) == []
            case Some(i) => Only(q, id) == [q[i]] + Only(q[..i] + q[i + 1..], id)
    decreases |q|
  {
    if q == [] {
    } else {
      assert [q[0]] + q[1..] == q;
      OnlyFront(q[0], q[1..], id);
      hide Only;
      if q[0].id == id {
        assert q[..0] + q[1..] == q[1..];
      } else {
        FirstOfChannel(q[1..], id);
        assert [] + Only(q[1..], id) == Only(q[1..], id);
        if Position(q[1..], id).Some? {
          var i := Position(q[1..], id).value;
          var rest := q[1..][..i] + q[1..][i + 1..];
          RemovedBehindFront(q, i);
          OnlyFront(q[0], rest, id);
          assert [] + Only(rest, id) == Only(rest, id);
        }
      }
    }
  }

  /**
   A receive hands out the next message of its channel and nothing else: what is still to come for
   the channel loses exactly its first element, and an empty answer means that nothing was to come.
   */
  lemma {:induction false} ReceiveIsFifo(r: Route, wire: seq<Packet>, pos: nat, channel: U16, id: U32)
    requires pos <= |wire|
    ensures var x := Receive(r, wire, pos, channel, id);
            match x.data
            case Some(data) => Upcoming(r, wire, pos, channel, id) == [data] + Upcoming(x.route, wire, x.pos, channel, id)
            case None => Upcoming(r, wire, pos, channel, id) == []
    decreases |wire| - pos
  {
    hide Chunk, Purged, Only, Texts, Position;
    FirstOfChannel(r.pending, id);
    match Position(r.pending, id)
    case Some(i) =>
      var rest := r.pending[..i] + r.pending[i + 1..];
      ArrivingIgnoresQueue(r, rest, wire, pos, channel, id);
      TextsOfFirst(r.pending[i], Only(rest, id));
      assert [r.pending[i].data] + Texts(Only(rest, id)) + Arriving(r, wire, pos, channel, id)
          == [r.pending[i].data] + (Texts(Only(rest, id)) + Arriving(r, wire, pos, channel, id));
    case None =>
      PurgeKeepsOwn(r.pending, id);
      TextsOfNone();
      if pos < |wire| {
        ReceiveWaits(r, wire, pos, channel, id);
      }
  }

  lemma TextsOfFirst(first: Queued, rest: seq<Queued>)
    ensures Texts([first] + rest) == [first.data] + Texts(rest)
  {
    assert ([first] + rest)[1..] == rest;
  }

  lemma TextsOfNone()
    ensures Texts([]) == []
  {
  }

  /** The step of a receive that finds nothing queued. */
  lemma {:induction false} ReceiveWaits(r: Route, wire: seq<Packet>, pos: nat, channel: U16, id: U32)
    requires pos < |wire| && Position(r.pending, id).None? && Only(r.pending, id) == []
    ensures var x := Receive(r, wire, pos, channel, id);
            match x.data
            case Some(data) => Upcoming(r, wire, pos, channel, id) == [data] + Upcoming(x.route, wire, x.pos, channel, id)
            case None => Upcoming(r, wire, pos, channel, id) == []
    decreases |wire| - pos, 0
  {
    hide Chunk, Purged, Only, Texts, Position;
    var r' := r.(pending := Purged(r.pending, id));
    PurgeKeepsOwn(r.pending, id);
    TextsOfNone();
    assert [] + Arriving(r, wire, pos, channel, id) == Arriving(r, wire, pos, channel, id);
    if wire[pos].channel != channel {
      ArrivingIgnoresQueue(r, r'.pending, wire, pos + 1, channel, id);
      ReceiveIsFifo(r', wire, pos + 1, channel, id);
      assert [] + Arriving(r', wire, pos + 1, channel, id) == Arriving(r', wire, pos + 1, channel, id);
    } else {
      var payload := wire[pos].payload;
      var (next, ok) := Chunk(r', channel, payload);
      ChunkQueues(r', channel, payload);
      var (plain, ok') := Chunk(r.(pending := []), channel, payload);
      if ok {
        OnlyAppend(r'.pending, plain.pending, id);
        assert [] + Only(plain.pending, id) == Only(plain.pending, id);
        ArrivingIgnoresQueue(plain, next.pending, wire, pos + 1, channel, id);
        ReceiveIsFifo(next, wire, pos + 1, channel, id);
      }
    }
  }

  // ---------- Waiting for the I/O channel ----------

  /** Waits for a packet of the I/O channel; dynamic channel traffic seen on the way is queued. */
  function ReceiveIo(r: Route, wire: seq<Packet>, pos: nat, channel: U16, io: U16): (x: Received)
    requires pos <= |wire|
    ensures pos <= x.pos <= |wire|
    decreases |wire| - pos
  {
    if pos == |wire| then Received(None, r, pos)
    else if wire[pos].channel == io then Received(Some(wire[pos].payload), r, pos + 1)
    else if wire[pos].channel != channel then ReceiveIo(r, wire, pos + 1, channel, io)
    else
      var (next, ok) := Chunk(r, channel, wire[pos].payload);
      if ok then ReceiveIo(next, wire, pos + 1, channel, io) else Received(None, next, pos + 1)
  }

  /** Waiting for the I/O channel takes nothing away from any dynamic channel. */
  lemma {:induction false} IoLosesNothing(r: Route, wire: seq<Packet>, pos: nat, channel: U16, io: U16, id: U32)
    requires pos <= |wire| && io != channel
    ensures var x := ReceiveIo(r, wire, pos, channel, io);
            x.data.Some? ==> Upcoming(x.route, wire, x.pos, channel, id) == Upcoming(r, wire, pos, channel, id)
    decreases |wire| - pos
  {
    hide Chunk, Only, Texts;
    if pos < |wire| && wire[pos].channel != io {
      if wire[pos].channel != channel {
        IoLosesNothing(r, wire, pos + 1, channel, io, id);
      } else {
        var payload := wire[pos].payload;
        var (next, ok) := Chunk(r, channel, payload);
        var plain := Chunk(r.(pending := []), channel, payload).0;
        ChunkQueues(r, channel, payload);
        if ok {
          IoLosesNothing(next, wire, pos + 1, channel, io, id);
          OnlyAppend(r.pending, plain.pending, id);
          TextsAppend(Only(r.pending, id), Only(plain.pending, id));
          ArrivingIgnoresQueue(plain, next.pending, wire, pos + 1, channel, id);
          var a, b, c := Texts(Only(r.pending, id)), Texts(Only(plain.pending, id)), Arriving(plain, wire, pos + 1, channel, id);
          assert a + b + c == a + (b + c);
        }
      }
    }
  }

  // ---------- From sender to whoever waits ----------

  /** Waits for `n` messages in a row. */
  function ReceiveMany(r: Route, wire: seq<Packet>, pos: nat, channel: U16, id: U32, n: nat): seq<seq<Byte>>
    requires pos <= |wire|
    decreases n
  {
    if n == 0 then []
    else
      var x := Receive(r, wire, pos, channel, id);
      if x.data.None? then [] else [x.data.value] + ReceiveMany(x.route, wire, x.pos, channel, id, n - 1)
  }

  lemma {:induction false} ReceiveAll(r: Route, wire: seq<Packet>, pos: nat, channel: U16, id: U32, n: nat)
    requires pos <= |wire| && n == |Upcoming(r, wire, pos, channel, id)|
    ensures ReceiveMany(r, wire, pos, channel, id, n) == Upcoming(r, wire, pos, channel, id)
    decreases n
  {
    hide Upcoming, Receive;
    ReceiveIsFifo(r, wire, pos, channel, id);
    if n > 0 {
      var x := Receive(r, wire, pos, channel, id);
      ReceiveAll(x.route, wire, x.pos, channel, id, n - 1);
    }
  }

  lemma {:induction false} QueueIsData(events: seq<D.Event>, id: U32)
    ensures Texts(Only(QueueOf(events), id)) == DataOf(events, id)
    decreases |events|
  {
    if events != [] {
      QueueIsData(events[1..], id);
      var rest := QueueOf(events[1..]);
      if events[0].Data? {
        var q := Queued(events[0].id, events[0].data);
        assert ([q] + rest)[1..] == rest;
        if q.id == id {
          TextsOfFirst(q, Only(rest, id));
        } else {
          assert [] + Only(rest, id) == Only(rest, id);
        }
      } else {
        assert [] + rest == rest;
      }
    }
  }

  /** Packets that no layer refuses. */
  predicate WellFormed(r: Route, wire: seq<Packet>, pos: nat, channel: U16)
    requires pos <= |wire|
    decreases |wire| - pos
  {
    pos == |wire| ||
    (if wire[pos].channel != channel then WellFormed(r, wire, pos + 1, channel)
     else
       var (next, ok) := Chunk(r.(pending := []), channel, wire[pos].payload);
       ok && WellFormed(next, wire, pos + 1, channel))
  }

  /** The packets that reach the dynamic channels. */
  function Reaching(wire: seq<Packet>, pos: nat, channel: U16): seq<Packet>
    requires pos <= |wire|
    decreases |wire| - pos
  {
    if pos == |wire| then []
    else (if wire[pos].channel == channel then [wire[pos]] else []) + Reaching(wire, pos + 1, channel)
  }

  /** What arrives is what the two lower layers deliver. */
  lemma {:induction false} ArrivingIs(r: Route, wire: seq<Packet>, pos: nat, channel: U16, id: U32)
    requires pos <= |wire| && WellFormed(r, wire, pos, channel)
    ensures var fed := FeedAll(r.demux, Reaching(wire, pos, channel));
            var handled := HandleAll(r.dvc, MessagesOf(fed.1, channel));
            fed.2 && handled.2 && Arriving(r, wire, pos, channel, id) == DataOf(handled.1, id)
    decreases |wire| - pos
  {
    hide Fed, D.Handle, QueueOf, Texts, Only, DataOf;
    if pos == |wire| {
      NoData(id);
    } else if wire[pos].channel != channel {
      assert Reaching(wire, pos, channel) == Reaching(wire, pos + 1, channel);
      ArrivingIs(r, wire, pos + 1, channel, id);
    } else {
      ArrivingStep(r, wire, pos, channel, id);
    }
  }

  lemma NoData(id: U32)
    ensures DataOf([], id) == []
  {
  }

  lemma {:induction false} ArrivingStep(r: Route, wire: seq<Packet>, pos: nat, channel: U16, id: U32)
    requires pos < |wire| && wire[pos].channel == channel && WellFormed(r, wire, pos, channel)
    ensures var fed := FeedAll(r.demux, Reaching(wire, pos, channel));
            var handled := HandleAll(r.dvc, MessagesOf(fed.1, channel));
            fed.2 && handled.2 && Arriving(r, wire, pos, channel, id) == DataOf(handled.1, id)
    decreases |wire| - pos, 0
  {
    hide Fed, D.Handle, QueueOf, Texts, Only, DataOf;
    var p := wire[pos];
    var (demux, out) := Fed(r.demux, p);
    var (next, ok) := Chunk(r.(pending := []), channel, p.payload);
    assert Reaching(wire, pos, channel)[0] == p;
    assert Reaching(wire, pos, channel)[1..] == Reaching(wire, pos + 1, channel);
    ArrivingIs(next, wire, pos + 1, channel, id);
    var more := FeedAll(demux, Reaching(wire, pos + 1, channel)).1;
    if out.value.Some? {
      var msg := out.value.value;
      var first := Delivered(channel, msg);
      assert ([first] + more)[1..] == more;
      assert MessagesOf([first] + more, channel) == [msg] + MessagesOf(more, channel);
      assert ([msg] + MessagesOf(more, channel))[1..] == MessagesOf(more, channel);
      var h := D.Handle(r.dvc, msg);
      assert [] + QueueOf(h.events) == QueueOf(h.events);
      QueueIsData(h.events, id);
      DataOfAppend(h.events, HandleAll(h.state, MessagesOf(more, channel)).1, id);
    } else {
      assert [] + more == more;
      NothingQueued(id);
    }
  }

  lemma NothingQueued(id: U32)
    ensures Texts(Only([], id)) == []
  {
  }

  lemma {:induction false} ReachingIsOn(wire: seq<Packet>, pos: nat, channel: U16)
    requires pos <= |wire|
    ensures On(Reaching(wire, pos, channel), channel) == On(wire[pos..], channel)
    decreases |wire| - pos
  {
    if pos < |wire| {
      ReachingIsOn(wire, pos + 1, channel);
      assert wire[pos..][1..] == wire[pos + 1..];
      var rest := Reaching(wire, pos + 1, channel);
      if wire[pos].channel == channel {
        assert ([wire[pos]] + rest)[1..] == rest;
      } else {
        assert [] + rest == rest;
      }
    }
  }

  /** No layer refuses anything exactly when every packet has its header and every message reassembled from them parses. */
  lemma {:induction false} WellFormedIs(r: Route, wire: seq<Packet>, pos: nat, channel: U16)
    requires pos <= |wire|
    ensures var fed := FeedAll(r.demux, Reaching(wire, pos, channel));
            WellFormed(r, wire, pos, channel) <==> fed.2 && HandleAll(r.dvc, MessagesOf(fed.1, channel)).2
    decreases |wire| - pos
  {
    hide Fed, D.Handle, QueueOf;
    if pos < |wire| {
      if wire[pos].channel != channel {
        assert Reaching(wire, pos, channel) == Reaching(wire, pos + 1, channel);
        WellFormedIs(r, wire, pos + 1, channel);
      } else {
        WellFormedStep(r, wire, pos, channel);
      }
    }
  }

  lemma {:induction false} WellFormedStep(r: Route, wire: seq<Packet>, pos: nat, channel: U16)
    requires pos < |wire| && wire[pos].channel == channel
    ensures var fed := FeedAll(r.demux, Reaching(wire, pos, channel));
            WellFormed(r, wire, pos, channel) <==> fed.2 && HandleAll(r.dvc, MessagesOf(fed.1, channel)).2
    decreases |wire| - pos, 0
  {
    hide Fed, D.Handle, QueueOf;
    var p := wire[pos];
    var (demux, out) := Fed(r.demux, p);
    var (next, ok) := Chunk(r.(pending := []), channel, p.payload);
    assert Reaching(wire, pos, channel)[0] == p;
    assert Reaching(wire, pos, channel)[1..] == Reaching(wire, pos + 1, channel);
    WellFormedIs(next, wire, pos + 1, channel);
    var more := FeedAll(demux, Reaching(wire, pos + 1, channel)).1;
    if out.Ok? && out.value.Some? {
      var msg := out.value.value;
      var first := Delivered(channel, msg);
      assert ([first] + more)[1..] == more;
      assert MessagesOf([first] + more, channel) == [msg] + MessagesOf(more, channel);
      assert ([msg] + MessagesOf(more, channel))[1..] == MessagesOf(more, channel);
    } else {
      assert [] + more == more;
    }
  }

  lemma {:induction false} ReachingIsLong(wire: seq<Packet>, pos: nat, channel: U16)
    requires pos <= |wire| && forall c :: c in On(wire[pos..], channel) ==> |c| >= HEADER
    ensures forall p :: p in Reaching(wire, pos, channel) ==> |p.payload| >= HEADER
    decreases |wire| - pos
  {
    if pos < |wire| {
      assert wire[pos..][1..] == wire[pos + 1..];
      if wire[pos].channel == channel {
        assert wire[pos].payload in On(wire[pos..], channel);
      }
      ReachingIsLong(wire, pos + 1, channel);
    }
  }

  /** When the channel's packets are the chunks of PDUs, nothing is refused exactly when these PDUs parse. */
  lemma SentIsWellFormed(wire: seq<Packet>, channel: U16, r: Route, stream: seq<seq<Byte>>)
    requires On(wire, channel) == AllChunks(stream)
    ensures WellFormed(r, wire, 0, channel) <==> forall m :: m in stream ==> Parses(m)
  {
    hide FeedAll, HandleAll, AllChunks, On, WellFormed, Reaching, Parses;
    var reaching := Reaching(wire, 0, channel);
    assert wire[0..] == wire;
    AllChunksAreLong(stream);
    ReachingIsLong(wire, 0, channel);
    FedUnlessShort(r.demux, reaching);
    ReachingIsOn(wire, 0, channel);
    VChannel.DeliversAll(r.demux, reaching, channel, stream);
    AllHandledIfParsed(r.dvc, stream);
    WellFormedIs(r, wire, 0, channel);
  }

  /** In particular nothing is refused when all PDUs are fragments of senders' messages. */
  lemma FragmentsAreWellFormed(wire: seq<Packet>, channel: U16, r: Route, stream: seq<seq<Byte>>)
    requires On(wire, channel) == AllChunks(stream) && AreFragments(stream)
    ensures WellFormed(r, wire, 0, channel)
  {
    hide *;
    AllFragmentsParse(stream);
    SentIsWellFormed(wire, channel, r, stream);
  }

  /**
   The whole way: fragments of a channel's messages, chunked, interleaved with any other
   PDUs that parse and packets of other channels, are received one call after another as exactly these messages, in order.
   */
  lemma SentIsReceived(wire: seq<Packet>, channel: U16, r: Route, stream: seq<seq<Byte>>, id: U32, msgs: seq<seq<Byte>>)
    requires r.pending == [] && Idle(r.dvc, id)
    requires On(wire, channel) == AllChunks(stream) && forall m :: m in stream ==> Parses(m)
    requires Sendable(msgs) && For(stream, id) == AllFragments(id, msgs)
    ensures ReceiveMany(r, wire, 0, channel, id, |msgs|) == msgs
  {
    hide FeedAll, HandleAll, AllChunks, On, For, AllFragments, WellFormed, ReceiveMany, Reaching, Arriving, Parses;
    SentIsWellFormed(wire, channel, r, stream);
    var reaching := Reaching(wire, 0, channel);
    ArrivingIs(r, wire, 0, channel, id);
    ReachingIsOn(wire, 0, channel);
    assert wire[0..] == wire;
    VChannel.DeliversAll(r.demux, reaching, channel, stream);
    DvcDelivery.DeliversAll(r.dvc, stream, id, msgs);
    NothingQueued(id);
    assert [] + msgs == msgs;
    ReceiveAll(r, wire, 0, channel, id, |msgs|);
  }

  // ---------- The router itself ----------

  /** The transport: packets in the order they arrive. Running out of them is an error for whoever waits. */
  class Transport {
    const packets: seq<Packet>
    var pos: nat

    ghost predicate Valid()
      reads this
    {
      pos <= |packets|
    }

    constructor (packets: seq<Packet>)
      ensures Valid() && this.packets == packets && pos == 0
    {
      this.packets := packets;
      pos := 0;
    }

    method Next() returns (p: Option<Packet>)
      requires Valid()
      modifies this
      ensures Valid()
      ensures p.None? <==> old(pos) == |packets|
      ensures p.None? ==> pos == old(pos)
      ensures p.Some? ==> p.value == packets[old(pos)] && pos == old(pos) + 1
    {
      if pos == |packets| {
        return None;
      }
      p := Some(packets[pos]);
      pos := pos + 1;
    }
  }

  class ChannelRouter {
    const ioChannelId: U16
    const staticChannelId: U16
    const demux: ChannelDemux
    const dvc: D.DvcManager
    var pendingDvcData: seq<Queued>
    var ioMessagesSkipped: nat

    ghost function View(): Route
      reads this, demux, dvc
    {
      Route(demux.partial, dvc.View(), pendingDvcData)
    }

    constructor (ioChannelId: U16, staticChannelId: U16)
      ensures this.ioChannelId == ioChannelId && this.staticChannelId == staticChannelId
      ensures View() == Route(map[], D.State(3, false, {}, map[], map[]), [])
      ensures fresh(demux) && fresh(dvc)
    {
      this.ioChannelId := ioChannelId;
      this.staticChannelId := staticChannelId;
      demux := new ChannelDemux();
      dvc := new D.DvcManager();
      pendingDvcData := [];
      ioMessagesSkipped := 0;
    }

    /** Queues data events and returns the others. */
    method HandleDrdynvcChunk(payload: seq<Byte>) returns (others: seq<D.Event>, ok: bool)
      modifies this, demux, dvc
      ensures (View(), ok) == Chunk(old(View()), staticChannelId, payload)
    {
      hide Fed, D.Handle, QueueOf;
      others, ok := [], true;
      var msg := demux.Feed(staticChannelId, payload);
      if msg.Err? {
        ok := false;
        return;
      }
      if msg.value.None? {
        return;
      }
      var events, replies, handled := dvc.HandleMessage(msg.value.value);
      ok := handled;
      if !ok {
        return;
      }
      others := Enqueue(events);
    }

    method Enqueue(events: seq<D.Event>) returns (others: seq<D.Event>)
      modifies this`pendingDvcData
      ensures pendingDvcData == old(pendingDvcData) + QueueOf(events)
    {
      others := [];
      assert events[0..] == events;
      for i := 0 to |events|
        invariant old(pendingDvcData) + QueueOf(events) == pendingDvcData + QueueOf(events[i..])
      {
        assert events[i..][1..] == events[i + 1..];
        if events[i].Data? {
          pendingDvcData := pendingDvcData + [Queued(events[i].id, events[i].data)];
        } else {
          others := others + [events[i]];
        }
      }
      assert QueueOf(events[|events|..]) == [];
    }

    /** `retain`: only the messages of channel `id` stay. */
    method Retain(id: U32)
      modifies this`pendingDvcData
      ensures pendingDvcData == Only(old(pendingDvcData), id)
    {
      var kept: seq<Queued> := [];
      assert pendingDvcData[0..] == pendingDvcData;
      for i := 0 to |pendingDvcData|
        invariant pendingDvcData == old(pendingDvcData)
        invariant Only(old(pendingDvcData), id) == kept + Only(pendingDvcData[i..], id)
      {
        assert pendingDvcData[i..][1..] == pendingDvcData[i + 1..];
        if pendingDvcData[i].id == id {
          kept := kept + [pendingDvcData[i]];
        }
      }
      assert Only(pendingDvcData[|pendingDvcData|..], id) == [];
      pendingDvcData := kept;
    }

    /** Waits for a packet of the I/O channel. */
    method RecvIo(wire: Transport) returns (r: Option<seq<Byte>>)
      requires wire.Valid()
      modifies this, demux, dvc, wire
      ensures wire.Valid()
      ensures ReceiveIo(old(View()), wire.packets, old(wire.pos), staticChannelId, ioChannelId) == Received(r, View(), wire.pos)
    {
      hide Chunk;
      while true
        invariant wire.Valid()
        invariant ReceiveIo(old(View()), wire.packets, old(wire.pos), staticChannelId, ioChannelId)
               == ReceiveIo(View(), wire.packets, wire.pos, staticChannelId, ioChannelId)
        decreases |wire.packets| - wire.pos
      {
        var p := wire.Next();
        if p.None? {
          return None;
        }
        if p.value.channel == ioChannelId {
          return Some(p.value.payload);
        }
        if p.value.channel == staticChannelId {
          var others, ok := HandleDrdynvcChunk(p.value.payload);
          if !ok {
            return None;
          }
        }
      }
    }

    /** Waits for a message of a dynamic channel, handing out queued ones first. */
    method RecvDvcData(wire: Transport, id: U32) returns (r: Option<seq<Byte>>)
      requires wire.Valid()
      modifies this, demux, dvc, wire
      ensures wire.Valid()
      ensures Receive(old(View()), wire.packets, old(wire.pos), staticChannelId, id) == Received(r, View(), wire.pos)
    {
      hide Chunk, Only, Receive;
      while true
        invariant wire.Valid()
        invariant Receive(old(View()), wire.packets, old(wire.pos), staticChannelId, id)
               == Receive(View(), wire.packets, wire.pos, staticChannelId, id)
        decreases |wire.packets| - wire.pos
      {
        ReceiveStep(View(), wire.packets, wire.pos, staticChannelId, id);
        var pos := Position(pendingDvcData, id);
        if pos.Some? {
          r := Some(pendingDvcData[pos.value].data);
          pendingDvcData := pendingDvcData[..pos.value] + pendingDvcData[pos.value + 1..];
          return;
        }
        if |pendingDvcData| > PURGE_ABOVE {
          Retain(id);
        }
        var p := wire.Next();
        if p.None? {
          return None;
        }
        if p.value.channel == staticChannelId {
          var others, ok := HandleDrdynvcChunk(p.value.payload);
          if !ok {
            return None;
          }
        } else if p.value.channel == ioChannelId {
          ioMessagesSkipped := ioMessagesSkipped + 1;
        }
      }
    }
  }

  lemma ReceiveStep(r: Route, wire: seq<Packet>, pos: nat, channel: U16, id: U32)
    requires pos <= |wire|
    ensures Receive(r, wire, pos, channel, id) ==
            match Position(r.pending, id)
            case Some(i) => Received(Some(r.pending[i].data), r.(pending := r.pending[..i] + r.pending[i + 1..]), pos)
            case None =>
              var r' := r.(pending := Purged(r.pending, id));
              if pos == |wire| then Received(None, r', pos)
              else if wire[pos].channel != channel then Receive(r', wire, pos + 1, channel, id)
              else
                var (next, ok) := Chunk(r', channel, wire[pos].payload);
                if ok then Receive(next, wire, pos + 1, channel, id) else Received(None, next, pos + 1)
  {
    hide Chunk, Purged, Position;
  }
}
