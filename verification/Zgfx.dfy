/**
 RDP 8.0 bulk compression (section 3.1.9.1.2 of MS-RDPEGFX): the meaning of a segment as the
 client decodes it, the sender's encoder, and the proof that decoding inverts encoding. The
 history is the unbounded stream of all bytes ever produced.
 */
module Zgfx {
  import opened Machine
  import opened Bits
  import opened ZgfxTable

  const HISTORY_SIZE := 2_500_000

  type History = seq<Byte>

  // ---------- Reading bits ----------

  /** The bits not read yet (zeros follow the last one) and how many have been consumed. */
  datatype Cursor = Cursor(rest: Stream, pos: nat)

  function Get(c: Cursor, n: nat): (r: (nat, Cursor))
    ensures r.1.pos == c.pos + n
  {
    var (v, rest) := GetBitsZ(c.rest, n, 0);
    (v, Cursor(rest, c.pos + n))
  }

  /** Skips to the next whole byte. */
  function Align(c: Cursor): (r: Cursor)
    ensures r.pos >= c.pos
  {
    Cursor(SkipZ(c.rest, PadLength(c.pos)), c.pos + PadLength(c.pos))
  }

  /** Reads a code bit by bit until some row has it. */
  function TokenFrom(c: Cursor, len: nat, code: nat): (r: Option<(nat, Cursor)>)
    requires 1 <= len <= 10
    ensures r.Some? ==> r.value.0 < |TokenTable()| && r.value.1.pos > c.pos
    decreases 10 - len
  {
    if len == 10 then None else
      var (b, c') := Get(c, 1);
      var code' := 2 * code + b;
      match FindRow(len, code', 0)
      case Some(i) => Some((i, c'))
      case None => TokenFrom(c', len + 1, code')
  }

  function UnaryLength(c: Cursor, count: nat, extra: nat): (r: Option<(nat, Cursor)>)
    requires extra <= 15
    ensures r.Some? ==> r.value.1.pos > c.pos
    decreases 15 - extra
  {
    var (b, c') := Get(c, 1);
    if b == 1 then
      if extra + 1 > 15 then None else UnaryLength(c', 2 * count, extra + 1)
    else
      var (v, c'') := Get(c', extra);
      Some((count + v, c''))
  }

  function DecodeLength(c: Cursor): (r: Option<(nat, Cursor)>)
    ensures r.Some? ==> r.value.1.pos > c.pos
  {
    var (b, c') := Get(c, 1);
    if b == 0 then Some((3, c')) else UnaryLength(c', 4, 2)
  }

  function RawBytes(c: Cursor, n: nat): (r: (seq<Byte>, Cursor))
    ensures r.1.pos == c.pos + 8 * n
    decreases n
  {
    if n == 0 then ([], c) else
      var (b, c') := Get(c, 8);
      GetBitsZBound(c.rest, 8);
      Pow2Values();
      var (more, c'') := RawBytes(c', n - 1);
      ([b] + more, c'')
  }

  // ---------- The history ----------

  /** `count` bytes copied from `distance` back, one by one, so that a copy may feed itself. */
  function CopyMatch(h: History, distance: nat, count: nat): (r: History)
    requires 1 <= distance <= |h|
    ensures |r| == |h| + count
    decreases count
  {
    if count == 0 then h else CopyMatch(h + [h[|h| - distance]], distance, count - 1)
  }

  /** A copy keeps the history and repeats it with period `distance`, overlapping or not. */
  lemma {:induction false} CopyIsPeriodic(h: History, distance: nat, count: nat)
    requires 1 <= distance <= |h|
    ensures h <= CopyMatch(h, distance, count)
    ensures forall i :: |h| <= i < |h| + count ==>
              CopyMatch(h, distance, count)[i] == CopyMatch(h, distance, count)[i - distance]
    decreases count
  {
    if count > 0 {
      CopyIsPeriodic(h + [h[|h| - distance]], distance, count - 1);
    }
  }

  /** What became of the history, and whether decoding went through to the end. */
  datatype Outcome = Outcome(history: History, ok: bool)

  /** Decodes tokens until `limit` bits have been consumed. */
  function DecodeBody(c: Cursor, limit: int, h: History): Outcome
    decreases limit - c.pos
  {
    if c.pos >= limit then Outcome(h, true) else
      match TokenFrom(c, 1, 0)
      case None => Outcome(h, false)
      case Some((i, c1)) =>
        var row := TokenTable()[i];
        var (v, c2) := Get(c1, row.valueBits);
        if !row.isMatch then
          DecodeBody(c2, limit, h + [(row.valueBase + v) % 0x100])
        else if row.valueBase + v == 0 then
          var (count, c3) := Get(c2, 15);
          var (bytes, c4) := RawBytes(Align(c3), count);
          DecodeBody(c4, limit, h + bytes)
        else
          match DecodeLength(c2)
          case None => Outcome(h, false)
          case Some((count, c3)) =>
            var distance := row.valueBase + v;
            if distance > HISTORY_SIZE || distance > |h| then Outcome(h, false)
            else DecodeBody(c3, limit, CopyMatch(h, distance, count))
  }

  const PACKET_COMPRESSED := 0x20

  /** The bit that PACKET_COMPRESSED stands for. */
  predicate Compressed(flags: Byte) {
    flags / PACKET_COMPRESSED % 2 == 1
  }

  /** One segment: flags, then either raw bytes or a bit stream and its trailer byte. */
  function DecodeSegment(segment: seq<Byte>, h: History): Outcome {
    if segment == [] then Outcome(h, false)
    else if !Compressed(segment[0]) then Outcome(h + segment[1..], true)
    else if |segment| == 1 then Outcome(h, false)
    else
      var body := segment[1..|segment| - 1];
      DecodeBody(Cursor(StreamOf(body, 0), 0), 8 * |body| - segment[|segment| - 1], h)
  }

  const DESCRIPTOR_SINGLE := 0xE0
  const DESCRIPTOR_MULTIPART := 0xE1

  /** The `n` size-prefixed segments that start at `pos`. */
  function DecodeParts(rest: seq<Byte>, pos: nat, n: nat, h: History): Outcome
    requires pos <= |rest|
    decreases n
  {
    if n == 0 then Outcome(h, true)
    else if pos + 4 > |rest| then Outcome(h, false)
    else
      var size := Le32(rest[pos], rest[pos + 1], rest[pos + 2], rest[pos + 3]);
      var end := pos + 4 + size;
      if end > |rest| then Outcome(h, false)
      else
        var part := DecodeSegment(rest[pos + 4..end], h);
        if !part.ok then part else DecodeParts(rest, end, n - 1, part.history)
  }

  /** One message of the channel: a single segment, or a counted list of segments. */
  function DecodeMessage(data: seq<Byte>, h: History): Outcome {
    if data == [] then Outcome(h, false)
    else if data[0] == DESCRIPTOR_SINGLE then DecodeSegment(data[1..], h)
    else if data[0] == DESCRIPTOR_MULTIPART && |data| >= 7 then
      DecodeParts(data[1..], 6, Le16(data[1], data[2]), h)
    else Outcome(h, false)
  }

  // ---------- What a message adds to the history ----------

  lemma {:induction false} BodyExtends(c: Cursor, limit: int, h: History)
    ensures h <= DecodeBody(c, limit, h).history
    decreases limit - c.pos
  {
    hide TokenTable, TokenFrom, Get, RawBytes, DecodeLength, CopyMatch, FindRow;
    if c.pos < limit && TokenFrom(c, 1, 0).Some? {
      var (i, c1) := TokenFrom(c, 1, 0).value;
      var row := TokenTable()[i];
      var (v, c2) := Get(c1, row.valueBits);
      if !row.isMatch {
        BodyExtends(c2, limit, h + [(row.valueBase + v) % 0x100]);
      } else if row.valueBase + v == 0 {
        var (count, c3) := Get(c2, 15);
        var (bytes, c4) := RawBytes(Align(c3), count);
        BodyExtends(c4, limit, h + bytes);
      } else if DecodeLength(c2).Some? {
        var (count, c3) := DecodeLength(c2).value;
        var distance := row.valueBase + v;
        if distance <= HISTORY_SIZE && distance <= |h| {
          CopyIsPeriodic(h, distance, count);
          BodyExtends(c3, limit, CopyMatch(h, distance, count));
        }
      }
    }
  }

  lemma SegmentExtends(segment: seq<Byte>, h: History)
    ensures h <= DecodeSegment(segment, h).history
  {
    hide DecodeBody;
    if |segment| > 1 && Compressed(segment[0]) {
      var body := segment[1..|segment| - 1];
      BodyExtends(Cursor(StreamOf(body, 0), 0), 8 * |body| - segment[|segment| - 1], h);
    }
  }

  lemma {:induction false} PartsExtend(rest: seq<Byte>, pos: nat, n: nat, h: History)
    requires pos <= |rest|
    ensures h <= DecodeParts(rest, pos, n, h).history
    decreases n
  {
    hide DecodeSegment;
    if n > 0 && pos + 4 <= |rest| {
      var end := pos + 4 + Le32(rest[pos], rest[pos + 1], rest[pos + 2], rest[pos + 3]);
      if end <= |rest| {
        SegmentExtends(rest[pos + 4..end], h);
        var part := DecodeSegment(rest[pos + 4..end], h);
        if part.ok {
          PartsExtend(rest, end, n - 1, part.history);
        }
      }
    }
  }

  /** Decompression only ever appends to the history, also when it fails. */
  lemma MessageExtends(data: seq<Byte>, h: History)
    ensures h <= DecodeMessage(data, h).history
  {
    hide DecodeSegment, DecodeParts;
    if data != [] && data[0] == DESCRIPTOR_SINGLE {
      SegmentExtends(data[1..], h);
    } else if |data| >= 7 && data[0] == DESCRIPTOR_MULTIPART {
      PartsExtend(data[1..], 6, Le16(data[1], data[2]), h);
    }
  }

  // ---------- One step of decoding ----------

  lemma TokenFound(c: Cursor, len: nat, code: nat, b: nat, c': Cursor, i: nat)
    requires 1 <= len <= 9 && Get(c, 1) == (b, c') && FindRow(len, 2 * code + b, 0) == Some(i)
    ensures TokenFrom(c, len, code) == Some((i, c'))
  {
    hide Get, FindRow, TokenTable;
  }

  lemma TokenTooLong(c: Cursor, code: nat)
    ensures TokenFrom(c, 10, code) == None
  {
  }

  lemma TokenContinues(c: Cursor, len: nat, code: nat, b: nat, c': Cursor)
    requires 1 <= len <= 9 && Get(c, 1) == (b, c') && FindRow(len, 2 * code + b, 0) == None
    ensures TokenFrom(c, len, code) == TokenFrom(c', len + 1, 2 * code + b)
  {
    hide Get, FindRow, TokenTable;
  }

  lemma BodyEnds(c: Cursor, limit: int, h: History)
    requires c.pos >= limit
    ensures DecodeBody(c, limit, h) == Outcome(h, true)
  {
  }

  lemma BodyNoToken(c: Cursor, limit: int, h: History)
    requires c.pos < limit && TokenFrom(c, 1, 0) == None
    ensures DecodeBody(c, limit, h) == Outcome(h, false)
  {
  }

  lemma BodyLiteral(c: Cursor, limit: int, h: History, i: nat, c1: Cursor, v: nat, c2: Cursor)
    requires c.pos < limit && TokenFrom(c, 1, 0) == Some((i, c1))
    requires Get(c1, TokenTable()[i].valueBits) == (v, c2) && !TokenTable()[i].isMatch
    ensures DecodeBody(c, limit, h) == DecodeBody(c2, limit, h + [(TokenTable()[i].valueBase + v) % 0x100])
  {
    hide TokenFrom, Get, TokenTable;
  }

  lemma BodyRaw(c: Cursor, limit: int, h: History, i: nat, c1: Cursor, v: nat, c2: Cursor)
    requires c.pos < limit && TokenFrom(c, 1, 0) == Some((i, c1))
    requires Get(c1, TokenTable()[i].valueBits) == (v, c2) && TokenTable()[i].isMatch && TokenTable()[i].valueBase + v == 0
    ensures var (count, c3) := Get(c2, 15);
            var (bytes, c4) := RawBytes(Align(c3), count);
            DecodeBody(c, limit, h) == DecodeBody(c4, limit, h + bytes)
  {
    hide TokenFrom, Get, TokenTable, RawBytes;
  }

  lemma BodyNoLength(c: Cursor, limit: int, h: History, i: nat, c1: Cursor, v: nat, c2: Cursor)
    requires c.pos < limit && TokenFrom(c, 1, 0) == Some((i, c1))
    requires Get(c1, TokenTable()[i].valueBits) == (v, c2) && TokenTable()[i].isMatch && TokenTable()[i].valueBase + v != 0
    requires DecodeLength(c2) == None
    ensures DecodeBody(c, limit, h) == Outcome(h, false)
  {
    hide TokenFrom, Get, TokenTable, DecodeLength;
  }

  lemma BodyMatch(c: Cursor, limit: int, h: History, i: nat, c1: Cursor, v: nat, c2: Cursor, count: nat, c3: Cursor)
    requires c.pos < limit && TokenFrom(c, 1, 0) == Some((i, c1))
    requires Get(c1, TokenTable()[i].valueBits) == (v, c2) && TokenTable()[i].isMatch && TokenTable()[i].valueBase + v != 0
    requires DecodeLength(c2) == Some((count, c3))
    ensures var distance := TokenTable()[i].valueBase + v;
            DecodeBody(c, limit, h) ==
            if distance > HISTORY_SIZE || distance > |h| then Outcome(h, false)
            else DecodeBody(c3, limit, CopyMatch(h, distance, count))
  {
    hide TokenFrom, Get, TokenTable, DecodeLength, CopyMatch;
  }

  lemma PartsEnd(rest: seq<Byte>, pos: nat, h: History)
    requires pos <= |rest|
    ensures DecodeParts(rest, pos, 0, h) == Outcome(h, true)
  {
  }

  lemma PartsTruncated(rest: seq<Byte>, pos: nat, n: nat, h: History)
    requires pos <= |rest| && n > 0
    requires pos + 4 > |rest| || pos + 4 + Le32(rest[pos], rest[pos + 1], rest[pos + 2], rest[pos + 3]) > |rest|
    ensures DecodeParts(rest, pos, n, h) == Outcome(h, false)
  {
  }

  lemma PartsStep(rest: seq<Byte>, pos: nat, n: nat, h: History, size: nat, part: Outcome)
    requires n > 0 && pos + 4 + size <= |rest|
    requires size == Le32(rest[pos], rest[pos + 1], rest[pos + 2], rest[pos + 3])
    requires part == DecodeSegment(rest[pos + 4..pos + 4 + size], h)
    ensures DecodeParts(rest, pos, n, h) == if part.ok then DecodeParts(rest, pos + 4 + size, n - 1, part.history) else part
  {
    hide DecodeSegment;
  }

  // ---------- The sender ----------

  /** What a sender may say; a row and its extra bits spell a byte or a distance. */
  datatype Token =
    | Literal(row: nat, extra: nat)
    | Match(row: nat, extra: nat, length: nat)
    | Raw(bytes: seq<Byte>)

  predicate Legal(t: Token, h: History) {
    match t
    case Literal(row, extra) =>
      row < |TokenTable()| && !TokenTable()[row].isMatch && extra < Pow2(TokenTable()[row].valueBits)
    case Match(row, extra, length) =>
      && row < |TokenTable()| && TokenTable()[row].isMatch && extra < Pow2(TokenTable()[row].valueBits)
      && 1 <= TokenTable()[row].valueBase + extra <= Min(|h|, HISTORY_SIZE)
      && 3 <= length <= 65535
    case Raw(bytes) => |bytes| <= 32767
  }

  /** The LZ77 meaning of a token. */
  function Meaning(t: Token, h: History): History
    requires Legal(t, h)
  {
    match t
    case Literal(row, extra) => h + [(TokenTable()[row].valueBase + extra) % 0x100]
    case Match(row, extra, length) => CopyMatch(h, TokenTable()[row].valueBase + extra, length)
    case Raw(bytes) => h + bytes
  }

  predicate AllLegal(ts: seq<Token>, h: History)
    decreases |ts|
  {
    ts == [] || (Legal(ts[0], h) && AllLegal(ts[1..], Meaning(ts[0], h)))
  }

  function MeaningOfAll(ts: seq<Token>, h: History): History
    requires AllLegal(ts, h)
    decreases |ts|
  {
    if ts == [] then h else MeaningOfAll(ts[1..], Meaning(ts[0], h))
  }

  /** The exponent of the largest power of two that is not above `n`, from `e` on. */
  function Exponent(n: nat, e: nat): (r: nat)
    requires Pow2(e) <= n < 0x1_0000 && e <= 15
    ensures e <= r <= 15 && Pow2(r) <= n < Pow2(r + 1)
    decreases 15 - e
  {
    if n < Pow2(e + 1) then e else Pow2Values(); Exponent(n, e + 1)
  }

  function LengthExponent(length: nat): (r: nat)
    requires 4 <= length <= 65535
    ensures 2 <= r <= 15 && Pow2(r) <= length < Pow2(r + 1)
  {
    assert Pow2(2) == 4;
    Exponent(length, 2)
  }

  function EncodeLength(length: nat, rest: Stream): Stream
    requires 3 <= length <= 65535
  {
    if length == 3 then Bit(false, rest) else
      var e := LengthExponent(length);
      Bit(true, Repeat(true, e - 2, Bit(false, PutBits(length - Pow2(e), e, rest))))
  }

  function LengthBits(length: nat): nat
    requires 3 <= length <= 65535
  {
    if length == 3 then 1 else 2 * LengthExponent(length)
  }

  function EncodeRow(row: nat, extra: nat, rest: Stream): Stream
    requires row < |TokenTable()|
  {
    PutBits(TokenTable()[row].code, TokenTable()[row].len, PutBits(extra, TokenTable()[row].valueBits, rest))
  }

  function RowBits(row: nat): nat
    requires row < |TokenTable()|
  {
    TokenTable()[row].len + TokenTable()[row].valueBits
  }

  function EncodeBytes(bytes: seq<Byte>, rest: Stream): Stream {
    if bytes == [] then rest else PutBits(bytes[0], 8, EncodeBytes(bytes[1..], rest))
  }

  /** The row whose first distance, zero, announces a raw run. */
  const RAW_ROW := 1

  /** A token's code when it starts at bit `pos`; raw bytes start on a whole byte. */
  function EncodeToken(t: Token, pos: nat, h: History, rest: Stream): Stream
    requires Legal(t, h)
  {
    match t
    case Literal(row, extra) => EncodeRow(row, extra, rest)
    case Match(row, extra, length) => EncodeRow(row, extra, EncodeLength(length, rest))
    case Raw(bytes) =>
      EncodeRow(RAW_ROW, 0, PutBits(|bytes|, 15, Repeat(false, PadLength(pos + RowBits(RAW_ROW) + 15), EncodeBytes(bytes, rest))))
  }

  function TokenBits(t: Token, pos: nat, h: History): nat
    requires Legal(t, h)
  {
    match t
    case Literal(row, _) => RowBits(row)
    case Match(row, _, length) => RowBits(row) + LengthBits(length)
    case Raw(bytes) => RowBits(RAW_ROW) + 15 + PadLength(pos + RowBits(RAW_ROW) + 15) + 8 * |bytes|
  }

  function EncodeAll(ts: seq<Token>, pos: nat, h: History, pad: nat): Stream
    requires AllLegal(ts, h)
    decreases |ts|
  {
    if ts == [] then Zeros(pad)
    else EncodeToken(ts[0], pos, h, EncodeAll(ts[1..], pos + TokenBits(ts[0], pos, h), Meaning(ts[0], h), pad))
  }

  /** The bit position behind the last token. */
  function EndOf(ts: seq<Token>, pos: nat, h: History): (r: nat)
    requires AllLegal(ts, h)
    ensures r >= pos
    decreases |ts|
  {
    if ts == [] then pos else EndOf(ts[1..], pos + TokenBits(ts[0], pos, h), Meaning(ts[0], h))
  }
}
