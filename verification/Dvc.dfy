/** `dvc.rs`: dynamic virtual channels (section 2.2.3 of MS-RDPEDYC): fields of variable width, fragments, and reassembly. */
module Dvc {
  import opened Machine
  import opened Bytes
  import VChannel
  import Utf8

  const CMD_CREATE := 1
  const CMD_DATA_FIRST := 2
  const CMD_DATA := 3
  const CMD_CLOSE := 4
  const CMD_CAPABILITY := 5

  // ---------- Fields of variable width ----------

  function WidthCode(n: U32): (r: nat)
    ensures r <= 2
  {
    if n <= 0xFF then 0 else if n <= 0xFFFF then 1 else 2
  }

  /** The value cut to the width. */
  function WidthBytes(v: U32, code: nat): seq<Byte> {
    if code == 0 then [v % 0x100] else if code == 1 then Le16Bytes(v % 0x1_0000) else Le32Bytes(v)
  }

  function ReadWidth(data: seq<Byte>, p: nat, code: nat): (r: Option<(U32, nat)>)
    ensures r.Some? ==> p < r.value.1 <= |data|
  {
    if code == 0 then
      match ReadU8(data, p)
      case None => None
      case Some((v, q)) => Some((v, q))
    else if code == 1 then
      match ReadU16(data, p)
      case None => None
      case Some((v, q)) => Some((v, q))
    else ReadU32(data, p)
  }

  lemma WidthBack(data: seq<Byte>, p: nat, v: U32, rest: seq<Byte>)
    requires p <= |data| && data[p..] == WidthBytes(v, WidthCode(v)) + rest
    ensures var end := p + |WidthBytes(v, WidthCode(v))|;
            ReadWidth(data, p, WidthCode(v)) == Some((v, end)) && end <= |data| && data[end..] == rest
    ensures |WidthBytes(v, WidthCode(v))| <= 4
  {
    hide ReadU8, ReadU16, ReadU32, Le16Bytes, Le32Bytes;
    if v <= 0xFF {
      assert v % 0x100 == v;
      U8Back(data, p, v, rest);
    } else if v <= 0xFFFF {
      assert v % 0x1_0000 == v;
      U16Back(data, p, v, rest);
    } else {
      U32Back(data, p, v, rest);
    }
  }

  // ---------- Sending ----------

  const DATA_CHUNK := 1590

  function Header(cmd: nat, field2: nat, cbId: nat): Byte
    requires cmd < 16 && field2 < 4 && cbId < 4
  {
    cmd * 16 + field2 * 4 + cbId
  }

  function DataPdu(id: U32, chunk: seq<Byte>): seq<Byte> {
    [Header(CMD_DATA, 0, WidthCode(id))] + (WidthBytes(id, WidthCode(id)) + chunk)
  }

  function FirstPdu(id: U32, total: U32, chunk: seq<Byte>): seq<Byte> {
    [Header(CMD_DATA_FIRST, WidthCode(total), WidthCode(id))]
    + (WidthBytes(id, WidthCode(id)) + (WidthBytes(total, WidthCode(total)) + chunk))
  }

  function EndOf(data: seq<Byte>, offset: nat): (r: nat)
    requires offset <= |data|
    ensures offset <= r <= |data|
  {
    Min(offset + DATA_CHUNK, |data|)
  }

  /** The fragments behind the first one. */
  function Rest(id: U32, data: seq<Byte>, offset: nat): seq<seq<Byte>>
    requires offset <= |data|
    decreases |data| - offset
  {
    if offset == |data| then []
    else [DataPdu(id, data[offset..EndOf(data, offset)])] + Rest(id, data, EndOf(data, offset))
  }

  function Fragments(id: U32, data: seq<Byte>): seq<seq<Byte>>
    requires |data| < 0x1_0000_0000
  {
    if |data| <= DATA_CHUNK then [DataPdu(id, data)]
    else [FirstPdu(id, |data|, data[..DATA_CHUNK])] + Rest(id, data, DATA_CHUNK)
  }

  /** `send_data`; every fragment is handed to the static channel in turn. */
  method SendData(id: U32, data: seq<Byte>) returns (sent: seq<seq<Byte>>)
    requires |data| < 0x1_0000_0000
    ensures sent == Fragments(id, data)
  {
    hide DataPdu, FirstPdu;
    if |data| <= DATA_CHUNK {
      return [DataPdu(id, data)];
    }
    sent := [FirstPdu(id, |data|, data[..DATA_CHUNK])];
    var offset: nat := DATA_CHUNK;
    while offset < |data|
      invariant offset <= |data|
      invariant Fragments(id, data) == sent + Rest(id, data, offset)
      decreases |data| - offset
    {
      var end := Min(offset + DATA_CHUNK, |data|);
      sent := sent + [DataPdu(id, data[offset..end])];
      offset := end;
    }
  }

  /** A fragment is at most 1599 bytes long, so it always fits one chunk of the static channel. */
  predicate Fits(pdu: seq<Byte>) {
    |pdu| <= 1599 < VChannel.CHUNK_SIZE
  }

  lemma WidthSize(v: U32)
    ensures 1 <= |WidthBytes(v, WidthCode(v))| <= 4
  {
  }

  lemma {:induction false} RestFits(id: U32, data: seq<Byte>, offset: nat)
    requires offset <= |data|
    ensures forall f :: f in Rest(id, data, offset) ==> Fits(f)
    decreases |data| - offset
  {
    WidthSize(id);
    hide WidthBytes;
    if offset < |data| {
      RestFits(id, data, EndOf(data, offset));
    }
  }

  lemma FragmentsFit(id: U32, data: seq<Byte>)
    requires |data| < 0x1_0000_0000
    ensures forall f :: f in Fragments(id, data) ==> Fits(f)
  {
    WidthSize(id);
    WidthSize(|data|);
    hide WidthBytes;
    if |data| > DATA_CHUNK {
      RestFits(id, data, DATA_CHUNK);
    }
  }

  lemma OneChunk(pdu: seq<Byte>)
    requires Fits(pdu)
    ensures VChannel.Chunks(pdu, 0) == [VChannel.ChunkAt(pdu, 0)]
  {
    hide VChannel.ChunkAt;
  }

  // ---------- Receiving ----------

  /** Text, as its UTF-8 bytes. */
  type Name = seq<Byte>

  /** A message in progress: the announced length and what has come of it. */
  datatype Pending = Pending(total: nat, data: seq<Byte>)

  datatype Event = Opened(name: Name, id: U32) | Data(id: U32, data: seq<Byte>)

  datatype State = State(version: U16, capsNegotiated: bool, wanted: set<Name>, open: map<Name, U32>, partial: map<U32, Pending>)

  /** What handling a message leads to: the new state, events, replies, and whether it was well formed. */
  datatype Handled = Handled(state: State, events: seq<Event>, replies: seq<seq<Byte>>, ok: bool)

  /** The status the client sends with a refusal: -2147024896 as an unsigned number. */
  const REFUSED := 0x8007_0000

  function Capabilities(version: U16): seq<Byte> {
    [Header(CMD_CAPABILITY, 0, 0), 0] + Le16Bytes(version)
  }

  function UpToZero(data: seq<Byte>): seq<Byte> {
    if data == [] || data[0] == 0 then [] else [data[0]] + UpToZero(data[1..])
  }

  /** The name as text: what is not well-formed UTF-8 in it is replaced. */
  function NameAt(data: seq<Byte>): Name {
    Utf8.Lossy(UpToZero(data))
  }

  /** A channel is accepted under a name without replacement characters only if exactly this name was sent. */
  lemma OnlyExactNames(data: seq<Byte>, name: Name)
    requires !Utf8.Replaced(name)
    ensures NameAt(data) == name <==> UpToZero(data) == name && Utf8.WellFormed(name)
  {
    Utf8.KeptIfWellFormed(UpToZero(data));
    Utf8.SentOrReplaced(UpToZero(data));
  }

  function CreateReply(id: U32, cbId: nat, accept: bool): seq<Byte>
    requires cbId < 4
  {
    [Header(CMD_CREATE, 0, cbId)] + WidthBytes(id, cbId) + Le32Bytes(if accept then 0 else REFUSED)
  }

  function Negotiate(s: State, msg: seq<Byte>): Handled {
    if |msg| < 4 then Handled(s, [], [], false)
    else
      var version := Le16(msg[2], msg[3]);
      Handled(s.(version := version, capsNegotiated := true), [], [Capabilities(version)], true)
  }

  /** A server that skips negotiation is taken to speak version 3. */
  function Create(s: State, msg: seq<Byte>, cbId: nat): Handled
    requires cbId < 4
  {
    var s', first := if s.capsNegotiated then s else s.(version := 3, capsNegotiated := true), if s.capsNegotiated then [] else [Capabilities(3)];
    match ReadWidth(msg, 1, cbId)
    case None => Handled(s', [], first, false)
    case Some((id, p)) =>
      var name := NameAt(msg[p..]);
      var accept := name in s.wanted;
      Handled(if accept then s'.(open := s'.open[name := id]) else s', if accept then [Opened(name, id)] else [],
              first + [CreateReply(id, cbId, accept)], true)
  }

  function HandleData(s: State, id: U32, chunk: seq<Byte>): Handled {
    if id in s.partial then
      var p := s.partial[id].(data := s.partial[id].data + chunk);
      if |p.data| >= p.total then Handled(s.(partial := s.partial - {id}), [Data(id, p.data)], [], true)
      else Handled(s.(partial := s.partial[id := p]), [], [], true)
    else Handled(s, [Data(id, chunk)], [], true)
  }

  function HandleFirst(s: State, id: U32, total: nat, chunk: seq<Byte>): Handled {
    if |chunk| >= total then Handled(s, [Data(id, chunk[..total])], [], true)
    else Handled(s.(partial := s.partial[id := Pending(total, chunk)]), [], [], true)
  }

  function Close(s: State, id: U32): State {
    s.(open := map n | n in s.open && s.open[n] != id :: s.open[n], partial := s.partial - {id})
  }

  /** The channel a data or close PDU is for, and where its id ends. */
  function ChannelOf(msg: seq<Byte>): (r: Option<(U32, nat)>)
    ensures r.Some? ==> 1 < r.value.1 <= |msg|
  {
    if msg == [] then None else ReadWidth(msg, 1, msg[0] % 4)
  }

  function Command(msg: seq<Byte>): nat
    requires msg != []
  {
    msg[0] / 16
  }

  function Handle(s: State, msg: seq<Byte>): Handled {
    if msg == [] then Handled(s, [], [], true)
    else if Command(msg) == CMD_CAPABILITY then Negotiate(s, msg)
    else if Command(msg) == CMD_CREATE then Create(s, msg, msg[0] % 4)
    else if Command(msg) == CMD_DATA || Command(msg) == CMD_DATA_FIRST || Command(msg) == CMD_CLOSE then
      match ChannelOf(msg)
      case None => Handled(s, [], [], false)
      case Some((id, p)) =>
        if Command(msg) == CMD_DATA then HandleData(s, id, msg[p..])
        else if Command(msg) == CMD_CLOSE then Handled(Close(s, id), [], [], true)
        else
          match ReadWidth(msg, p, msg[0] / 4 % 4)
          case None => Handled(s, [], [], false)
          case Some((total, q)) => HandleFirst(s, id, total, msg[q..])
    else Handled(s, [], [], true)
  }

  class DvcManager {
    var version: U16
    var capsNegotiated: bool
    var wanted: set<Name>
    var openChannels: map<Name, U32>
    var partial: map<U32, Pending>

    ghost function View(): State
      reads this
    {
      State(version, capsNegotiated, wanted, openChannels, partial)
    }

    constructor ()
      ensures View() == State(3, false, {}, map[], map[])
    {
      version := 3;
      capsNegotiated := false;
      wanted := {};
      openChannels := map[];
      partial := map[];
    }

    method WantChannel(name: Name)
      modifies this`wanted
      ensures View() == old(View()).(wanted := old(wanted) + {name})
    {
      wanted := wanted + {name};
    }

    method HandleCreate(msg: seq<Byte>, cbId: nat) returns (events: seq<Event>, replies: seq<seq<Byte>>, ok: bool)
      requires cbId < 4
      modifies this
      ensures Create(old(View()), msg, cbId) == Handled(View(), events, replies, ok)
    {
      hide ReadWidth, NameAt, Capabilities, CreateReply;
      events, replies := [], [];
      if !capsNegotiated {
        version := 3;
        replies := replies + [Capabilities(version)];
        capsNegotiated := true;
      }
      var at := ReadWidth(msg, 1, cbId);
      if at.None? {
        return events, replies, false;
      }
      var (id, p) := at.value;
      var name := NameAt(msg[p..]);
      var accept := name in wanted;
      replies := replies + [CreateReply(id, cbId, accept)];
      if accept {
        openChannels := openChannels[name := id];
        events := events + [Opened(name, id)];
      }
      ok := true;
    }

    method HandleDataChunk(id: U32, chunk: seq<Byte>) returns (events: seq<Event>)
      modifies this`partial
      ensures HandleData(old(View()), id, chunk) == Handled(View(), events, [], true)
    {
      if id in partial {
        var p := partial[id].(data := partial[id].data + chunk);
        if |p.data| >= p.total {
          partial := partial - {id};
          return [Data(id, p.data)];
        }
        partial := partial[id := p];
        return [];
      }
      return [Data(id, chunk)];
    }

    /** `handle_message`: one message of the static channel. */
    method HandleMessage(msg: seq<Byte>) returns (events: seq<Event>, replies: seq<seq<Byte>>, ok: bool)
      modifies this
      ensures Handle(old(View()), msg) == Handled(View(), events, replies, ok)
    {
      hide ReadWidth, Create, HandleData, Capabilities;
      events, replies, ok := [], [], true;
      if msg == [] {
        return;
      }
      var cmd, field2, cbId := msg[0] / 16, msg[0] / 4 % 4, msg[0] % 4;
      if cmd == CMD_CAPABILITY {
        if |msg| < 4 {
          ok := false;
          return;
        }
        version := Le16(msg[2], msg[3]);
        replies := [Capabilities(version)];
        capsNegotiated := true;
      } else if cmd == CMD_CREATE {
        events, replies, ok := HandleCreate(msg, cbId);
      } else if cmd == CMD_DATA || cmd == CMD_DATA_FIRST || cmd == CMD_CLOSE {
        var at := ReadWidth(msg, 1, cbId);
        if at.None? {
          ok := false;
          return;
        }
        var (id, p) := at.value;
        if cmd == CMD_DATA {
          events := HandleDataChunk(id, msg[p..]);
        } else if cmd == CMD_CLOSE {
          openChannels := map n | n in openChannels && openChannels[n] != id :: openChannels[n];
          partial := partial - {id};
        } else {
          var length := ReadWidth(msg, p, field2);
          if length.None? {
            ok := false;
            return;
          }
          var (total, q) := length.value;
          var chunk := msg[q..];
          if |chunk| >= total {
            events := [Data(id, chunk[..total])];
          } else {
            partial := partial[id := Pending(total, chunk)];
          }
        }
      }
    }
  }
}
