/** Framing of compressed segments into channel messages, and whole runs of messages over one history. */
module ZgfxMessages {
  import opened Machine
  import opened Seqs
  import opened Zgfx
  import opened ZgfxRoundTrip

  // ---------- Multipart framing ----------

  ghost predicate AllFit(segments: seq<seq<Byte>>) {
    forall i :: 0 <= i < |segments| ==> |segments[i]| < 0x1_0000_0000
  }

  /** Each segment behind its little-endian size. */
  function Parts(segments: seq<seq<Byte>>): seq<Byte>
    requires AllFit(segments)
  {
    if segments == [] then [] else Le32Bytes(|segments[0]|) + segments[0] + Parts(segments[1..])
  }

  function Multipart(segments: seq<seq<Byte>>, sizeHint: U32): seq<Byte>
    requires AllFit(segments) && |segments| < 0x1_0000
  {
    [DESCRIPTOR_MULTIPART] + Le16Bytes(|segments|) + Le32Bytes(sizeHint) + Parts(segments)
  }

  /** The segments one after another, up to the first that fails. */
  function DecodeSegments(segments: seq<seq<Byte>>, h: History): Outcome {
    if segments == [] then Outcome(h, true)
    else
      var part := DecodeSegment(segments[0], h);
      if part.ok then DecodeSegments(segments[1..], part.history) else part
  }

  lemma PartAt(rest: seq<Byte>, pos: nat, size: seq<Byte>, first: seq<Byte>, more: seq<Byte>)
    requires pos <= |rest| && |size| == 4 && rest[pos..] == size + first + more
    ensures var end := pos + 4 + |first|;
            end <= |rest| && rest[pos + 4..end] == first && rest[end..] == more
    ensures rest[pos] == size[0] && rest[pos + 1] == size[1] && rest[pos + 2] == size[2] && rest[pos + 3] == size[3]
  {
    Advance(rest, pos, size, first, more);
    Advance(rest, pos + 4, first, [], more);
    var tail := rest[pos..];
    assert rest[pos] == tail[0] && rest[pos + 1] == tail[1] && rest[pos + 2] == tail[2] && rest[pos + 3] == tail[3];
  }

  lemma {:induction false} PartsAreSegments(segments: seq<seq<Byte>>, rest: seq<Byte>, pos: nat, junk: seq<Byte>, h: History)
    requires AllFit(segments) && pos <= |rest| && rest[pos..] == Parts(segments) + junk
    ensures DecodeParts(rest, pos, |segments|, h) == DecodeSegments(segments, h)
    decreases |segments|
  {
    hide DecodeSegment, DecodeParts;
    if segments == [] {
      PartsEnd(rest, pos, h);
    } else {
      var first: seq<Byte> := segments[0];
      var size := Le32Bytes(|first|);
      hide Le32, Le32Bytes;
      var more := Parts(segments[1..]) + junk;
      var end := pos + 4 + |first|;
      assert rest[pos..] == size + first + more;
      PartAt(rest, pos, size, first, more);
      hide Parts;
      var part := DecodeSegment(first, h);
      PartsStep(rest, pos, |segments|, h, |first|, part);
      if part.ok {
        PartsAreSegments(segments[1..], rest, end, junk, part.history);
      }
    }
  }

  /** A multipart message decodes as its segments one after another; what follows the last segment is ignored. */
  lemma MultipartIsItsSegments(segments: seq<seq<Byte>>, sizeHint: U32, junk: seq<Byte>, h: History)
    requires AllFit(segments) && |segments| < 0x1_0000
    ensures DecodeMessage(Multipart(segments, sizeHint) + junk, h) == DecodeSegments(segments, h)
  {
    hide DecodeParts, DecodeSegments, Parts, Le32, Le32Bytes, AllFit;
    var head := Le16Bytes(|segments|) + Le32Bytes(sizeHint);
    var data := Multipart(segments, sizeHint) + junk;
    assert data == [DESCRIPTOR_MULTIPART] + (head + (Parts(segments) + junk));
    assert data[1..] == head + (Parts(segments) + junk);
    assert data[1] == Le16Bytes(|segments|)[0] && data[2] == Le16Bytes(|segments|)[1];
    PartsAreSegments(segments, data[1..], 6, junk, h);
  }

  // ---------- Whole runs ----------

  /** What a sender may put in one message. */
  datatype Message =
    | Single(tokens: seq<Token>)
    | Several(parts: seq<seq<Token>>, sizeHint: U32)

  predicate PartsLegal(parts: seq<seq<Token>>, h: History)
    decreases |parts|
  {
    parts == [] ||
    (AllLegal(parts[0], h) && |EncodeSegment(parts[0], h)| < 0x1_0000_0000 && PartsLegal(parts[1..], MeaningOfAll(parts[0], h)))
  }

  function MeaningOfParts(parts: seq<seq<Token>>, h: History): History
    requires PartsLegal(parts, h)
    decreases |parts|
  {
    if parts == [] then h else MeaningOfParts(parts[1..], MeaningOfAll(parts[0], h))
  }

  function EncodeSegments(parts: seq<seq<Token>>, h: History): (r: seq<seq<Byte>>)
    requires PartsLegal(parts, h)
    ensures |r| == |parts| && AllFit(r)
    decreases |parts|
  {
    if parts == [] then [] else [EncodeSegment(parts[0], h)] + EncodeSegments(parts[1..], MeaningOfAll(parts[0], h))
  }

  lemma {:induction false} SegmentsRoundTrip(parts: seq<seq<Token>>, h: History)
    requires PartsLegal(parts, h)
    ensures DecodeSegments(EncodeSegments(parts, h), h) == Outcome(MeaningOfParts(parts, h), true)
    decreases |parts|
  {
    hide DecodeSegment, EncodeSegment, MeaningOfAll, AllLegal;
    if parts != [] {
      var all := EncodeSegments(parts, h);
      assert all[1..] == EncodeSegments(parts[1..], MeaningOfAll(parts[0], h));
      SegmentRoundTrip(parts[0], h);
      SegmentsRoundTrip(parts[1..], MeaningOfAll(parts[0], h));
    }
  }

  predicate MessageLegal(m: Message, h: History) {
    match m
    case Single(tokens) => AllLegal(tokens, h)
    case Several(parts, _) => |parts| < 0x1_0000 && PartsLegal(parts, h)
  }

  function MeaningOfMessage(m: Message, h: History): History
    requires MessageLegal(m, h)
  {
    match m
    case Single(tokens) => MeaningOfAll(tokens, h)
    case Several(parts, _) => MeaningOfParts(parts, h)
  }

  function EncodeMessage(m: Message, h: History): seq<Byte>
    requires MessageLegal(m, h)
  {
    match m
    case Single(tokens) => [DESCRIPTOR_SINGLE] + EncodeSegment(tokens, h)
    case Several(parts, sizeHint) => Multipart(EncodeSegments(parts, h), sizeHint)
  }

  lemma MessageRoundTrip(m: Message, h: History)
    requires MessageLegal(m, h)
    ensures DecodeMessage(EncodeMessage(m, h), h) == Outcome(MeaningOfMessage(m, h), true)
  {
    hide DecodeSegment, EncodeSegment, MeaningOfAll, AllLegal, DecodeParts, PartsLegal, Multipart;
    var data := EncodeMessage(m, h);
    match m
    case Single(tokens) =>
      assert data[1..] == EncodeSegment(tokens, h);
      SegmentRoundTrip(tokens, h);
    case Several(parts, sizeHint) =>
      var segments := EncodeSegments(parts, h);
      SegmentsRoundTrip(parts, h);
      MultipartIsItsSegments(segments, sizeHint, [], h);
      assert Multipart(segments, sizeHint) + [] == data;
  }

  predicate RunLegal(ms: seq<Message>, h: History)
    decreases |ms|
  {
    ms == [] || (MessageLegal(ms[0], h) && RunLegal(ms[1..], MeaningOfMessage(ms[0], h)))
  }

  function MeaningOfRun(ms: seq<Message>, h: History): History
    requires RunLegal(ms, h)
    decreases |ms|
  {
    if ms == [] then h else MeaningOfRun(ms[1..], MeaningOfMessage(ms[0], h))
  }

  function EncodeRun(ms: seq<Message>, h: History): seq<seq<Byte>>
    requires RunLegal(ms, h)
    decreases |ms|
  {
    if ms == [] then [] else [EncodeMessage(ms[0], h)] + EncodeRun(ms[1..], MeaningOfMessage(ms[0], h))
  }

  function DecodeRun(messages: seq<seq<Byte>>, h: History): Outcome {
    if messages == [] then Outcome(h, true)
    else
      var first := DecodeMessage(messages[0], h);
      if first.ok then DecodeRun(messages[1..], first.history) else first
  }

  /** Over a whole connection, matches reaching back across segments and messages included, the client's history is the sender's. */
  lemma {:induction false} RunRoundTrip(ms: seq<Message>, h: History)
    requires RunLegal(ms, h)
    ensures DecodeRun(EncodeRun(ms, h), h) == Outcome(MeaningOfRun(ms, h), true)
    decreases |ms|
  {
    hide DecodeMessage, EncodeMessage, MeaningOfMessage, MessageLegal;
    if ms != [] {
      var h' := MeaningOfMessage(ms[0], h);
      assert EncodeRun(ms, h)[1..] == EncodeRun(ms[1..], h');
      MessageRoundTrip(ms[0], h);
      RunRoundTrip(ms[1..], h');
    }
  }
}
