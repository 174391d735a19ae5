/** `zgfx.rs`: the bit accumulator and the history ring, proved against module Zgfx. */
module ZgfxDecoder {
  import opened Machine
  import opened Bits
  import opened ZgfxTable
  import opened Zgfx

  /** The bits of a segment body from bit `i` on; zeros follow the last one. */
  function RestAt(body: seq<Byte>, i: nat): Stream {
    if i <= 8 * |body| then StreamOf(body, i) else End
  }

  lemma {:induction false} SkipRest(body: seq<Byte>, i: nat, n: nat)
    ensures SkipZ(RestAt(body, i), n) == RestAt(body, i + n)
    decreases n
  {
    if n > 0 {
      SkipRest(body, i + 1, n - 1);
    }
  }

  /** Shifting the accumulator by eight and adding the next byte, or zero behind the last one. */
  lemma LoadByte(body: seq<Byte>, at: nat, n: nat)
    requires (at + n) % 8 == 0
    ensures var i := (at + n) / 8;
            GetBitsZ(RestAt(body, at), n + 8, 0).0
            == 0x100 * GetBitsZ(RestAt(body, at), n, 0).0 + if i < |body| then body[i] else 0
  {
    hide GetBitsZ, StreamOf, Shl, Shr;
    var v, i := GetBitsZ(RestAt(body, at), n, 0).0, (at + n) / 8;
    GetBitsZSplit(RestAt(body, at), n, 8, 0);
    SkipRest(body, at, n);
    ShlIs(v, 8);
    Pow2Values();
    if i < |body| {
      GetByte(body, i, v);
    } else {
      EndAt(body, at + n);
      GetBitsZAcc(End, 8, v);
      ReadEnd(8);
    }
  }

  lemma EndAt(body: seq<Byte>, i: nat)
    requires i >= 8 * |body|
    ensures RestAt(body, i) == End
  {
  }

  lemma {:induction false} ReadEnd(n: nat)
    ensures GetBitsZ(End, n, 0) == (0, End)
  {
    if n > 0 {
      ReadEnd(n - 1);
    }
  }

  lemma AccumulatorFits(s: Stream, n: nat)
    requires n <= 31
    ensures GetBitsZ(s, n, 0).0 < 0x8000_0000
  {
    GetBitsZBound(s, n);
    Pow2Mono(n, 31);
    Pow2Add(16, 15);
    Pow2Values();
  }

  class BitReader {
    const data: seq<Byte>
    var pos: nat
    const end: nat
    var bitsCurrent: U32
    var nBitsCurrent: nat
    var bitsRemaining: int
    /** Bits consumed so far. */
    ghost var at: nat

    ghost function Body(): seq<Byte>
      requires end <= |data|
    {
      data[..end]
    }

    /** The accumulator holds the `nBitsCurrent` bits between `at` and the next whole byte. */
    ghost predicate Loaded()
      reads this
    {
      && end + 1 == |data|
      && (at + nBitsCurrent) % 8 == 0
      && pos == Min((at + nBitsCurrent) / 8, end)
      && bitsCurrent == GetBitsZ(RestAt(Body(), at), nBitsCurrent, 0).0
      && bitsRemaining == Limit() - at
    }

    ghost predicate Valid()
      reads this
    {
      Loaded() && nBitsCurrent < 8
    }

    /** The number of bits the trailer byte leaves valid. */
    ghost function Limit(): int
      requires end + 1 == |data|
    {
      8 * end - data[end]
    }

    ghost function View(): Cursor
      reads this
      requires end + 1 == |data|
    {
      Cursor(RestAt(Body(), at), at)
    }

    constructor (encoded: seq<Byte>)
      requires encoded != []
      ensures Valid() && data == encoded
      ensures View() == Cursor(StreamOf(encoded[..|encoded| - 1], 0), 0)
    {
      data := encoded;
      pos := 0;
      end := |encoded| - 1;
      bitsCurrent := 0;
      nBitsCurrent := 0;
      bitsRemaining := 8 * (|encoded| - 1) - encoded[|encoded| - 1];
      at := 0;
    }

    method GetBits(count: nat) returns (result: nat)
      requires Valid() && count <= 24
      modifies this
      ensures Valid() && (result, View()) == Get(old(View()), count)
    {
      hide GetBitsZ, StreamOf, Low, Shr, RestAt;
      while nBitsCurrent < count
        invariant Loaded() && nBitsCurrent < count + 8 && at == old(at)
        decreases count - nBitsCurrent
      {
        LoadByte(Body(), at, nBitsCurrent);
        AccumulatorFits(RestAt(Body(), at), nBitsCurrent + 8);
        if pos < end {
          bitsCurrent := 0x100 * bitsCurrent + data[pos];
          pos := pos + 1;
        } else {
          bitsCurrent := 0x100 * bitsCurrent;
        }
        nBitsCurrent := nBitsCurrent + 8;
      }
      bitsRemaining := bitsRemaining - count;
      nBitsCurrent := nBitsCurrent - count;
      result := Shr(bitsCurrent, nBitsCurrent);
      LowOfRead(RestAt(Body(), at), count, nBitsCurrent);
      SplitLow(bitsCurrent, nBitsCurrent);
      SkipRest(Body(), at, count);
      GetBitsZRest(RestAt(Body(), at), count, 0);
      bitsCurrent := Low(bitsCurrent, nBitsCurrent);
      at := at + count;
    }

    /** Discards the unread bits of the current byte. */
    method ByteAlign()
      requires Valid()
      modifies this
      ensures Valid() && View() == Align(old(View()))
    {
      hide StreamOf, SkipZ, RestAt, GetBitsZ;
      SkipRest(Body(), at, nBitsCurrent);
      bitsRemaining := bitsRemaining - nBitsCurrent;
      at := at + nBitsCurrent;
      nBitsCurrent := 0;
      bitsCurrent := 0;
      NoBitsRead(RestAt(Body(), at));
    }
  }

  lemma NoBitsRead(s: Stream)
    ensures GetBitsZ(s, 0, 0).0 == 0
  {
  }

  method DecodeToken(reader: BitReader) returns (r: Option<nat>)
    requires reader.Valid()
    modifies reader
    ensures reader.Valid()
    ensures r.None? <==> TokenFrom(old(reader.View()), 1, 0).None?
    ensures r.Some? ==> TokenFrom(old(reader.View()), 1, 0) == Some((r.value, reader.View()))
  {
    hide Get, FindRow, TokenTable, TokenFrom;
    var code := 0;
    for len := 1 to 10
      invariant reader.Valid()
      invariant TokenFrom(old(reader.View()), 1, 0) == TokenFrom(reader.View(), len, code)
    {
      ghost var c := reader.View();
      var b := reader.GetBits(1);
      var row := FindRow(len, 2 * code + b, 0);
      if row.Some? {
        TokenFound(c, len, code, b, reader.View(), row.value);
        return row;
      }
      TokenContinues(c, len, code, b, reader.View());
      code := 2 * code + b;
    }
    TokenTooLong(reader.View(), code);
    return None;
  }

  method DecodeLengthField(reader: BitReader) returns (r: Option<nat>)
    requires reader.Valid()
    modifies reader
    ensures reader.Valid()
    ensures r.None? <==> DecodeLength(old(reader.View())).None?
    ensures r.Some? ==> DecodeLength(old(reader.View())) == Some((r.value, reader.View()))
  {
    hide Get, UnaryLength, AfterUnaryBit;
    var first := reader.GetBits(1);
    if first == 0 {
      return Some(3);
    }
    var count, extra := 4, 2;
    UnaryStep(reader.View(), count, extra);
    var more := reader.GetBits(1);
    while more == 1
      invariant reader.Valid() && extra <= 15
      invariant DecodeLength(old(reader.View())) == AfterUnaryBit(more, reader.View(), count, extra)
      decreases 15 - extra
    {
      AfterBit(more, reader.View(), count, extra);
      count := 2 * count;
      extra := extra + 1;
      if extra > 15 {
        return None;
      }
      UnaryStep(reader.View(), count, extra);
      more := reader.GetBits(1);
    }
    AfterBit(more, reader.View(), count, extra);
    var v := reader.GetBits(extra);
    return Some(count + v);
  }

  /** What a unary length amounts to once its next bit has been read. */
  ghost function AfterUnaryBit(b: nat, c: Cursor, count: nat, extra: nat): Option<(nat, Cursor)>
    requires extra <= 15
  {
    if b == 1 then
      if extra + 1 > 15 then None else UnaryLength(c, 2 * count, extra + 1)
    else
      var (v, c') := Get(c, extra);
      Some((count + v, c'))
  }

  lemma UnaryStep(c: Cursor, count: nat, extra: nat)
    requires extra <= 15
    ensures UnaryLength(c, count, extra) == AfterUnaryBit(Get(c, 1).0, Get(c, 1).1, count, extra)
  {
  }

  lemma AfterBit(b: nat, c: Cursor, count: nat, extra: nat)
    requires extra <= 15
    ensures b == 1 ==> AfterUnaryBit(b, c, count, extra) == if extra == 15 then None else UnaryLength(c, 2 * count, extra + 1)
    ensures b != 1 ==> AfterUnaryBit(b, c, count, extra) == Some((count + Get(c, extra).0, Get(c, extra).1))
  {
  }

  // ---------- The history ring ----------

  /** Where byte `j` of the stream lies in the ring. */
  function Slot(j: nat): (r: nat)
    ensures r < HISTORY_SIZE
  {
    j % HISTORY_SIZE
  }

  /** Bytes less than a ring apart lie in different slots. */
  lemma SlotsApart(i: nat, j: nat)
    requires i < j < i + HISTORY_SIZE
    ensures Slot(i) != Slot(j)
  {
    var q := j / HISTORY_SIZE - i / HISTORY_SIZE;
    assert j - i == q * HISTORY_SIZE + Slot(j) - Slot(i);
  }

  /** The last HISTORY_SIZE bytes of the stream are in the ring. */
  ghost predicate Holds(ring: seq<Byte>, stream: History) {
    |ring| == HISTORY_SIZE &&
    forall j: nat {:trigger stream[j]} :: j < |stream| <= j + HISTORY_SIZE ==> ring[Slot(j)] == stream[j]
  }

  lemma WriteKeepsRing(ring: seq<Byte>, stream: History, b: Byte)
    requires Holds(ring, stream)
    ensures Holds(ring[Slot(|stream|) := b], stream + [b])
  {
    hide Slot;
    var ring', stream' := ring[Slot(|stream|) := b], stream + [b];
    forall j: nat | j < |stream'| <= j + HISTORY_SIZE
      ensures ring'[Slot(j)] == stream'[j]
    {
      if j < |stream| {
        SlotsApart(j, |stream|);
        assert stream'[j] == stream[j];
      }
    }
  }

  lemma RingAt(ring: seq<Byte>, stream: History, distance: nat)
    requires Holds(ring, stream) && 1 <= distance <= |stream| && distance <= HISTORY_SIZE
    ensures (|stream| + HISTORY_SIZE - distance) % HISTORY_SIZE == Slot(|stream| - distance)
    ensures ring[Slot(|stream| - distance)] == stream[|stream| - distance]
  {
    assert |stream| + HISTORY_SIZE - distance == (|stream| - distance) + HISTORY_SIZE;
  }

  lemma CopyStep(h: History, distance: nat, count: nat)
    requires 1 <= distance <= |h| && count > 0
    ensures CopyMatch(h, distance, count) == CopyMatch(h + [h[|h| - distance]], distance, count - 1)
  {
  }

  lemma CopyNothing(h: History, distance: nat)
    requires 1 <= distance <= |h|
    ensures CopyMatch(h, distance, 0) == h
  {
  }

  class ZgfxContext {
    var history: array<Byte>
    var index: nat
    /** Every byte ever produced. */
    ghost var stream: History

    ghost predicate Valid()
      reads this, history
    {
      history.Length == HISTORY_SIZE && index == |stream| && Holds(history[..], stream)
    }

    constructor ()
      ensures Valid() && stream == [] && fresh(history)
    {
      history := new Byte[HISTORY_SIZE](i => 0);
      index := 0;
      stream := [];
      new;
    }

    method WriteByte(b: Byte, out: seq<Byte>) returns (out': seq<Byte>)
      requires Valid()
      modifies this`index, this`stream, history
      ensures Valid() && stream == old(stream) + [b] && out' == out + [b]
    {
      hide Holds;
      WriteKeepsRing(history[..], stream, b);
      history[index % HISTORY_SIZE] := b;
      index := index + 1;
      stream := stream + [b];
      out' := out + [b];
    }

    /** Appends a match; a distance beyond the ring or beyond all that was written is refused. */
    method CopyFrom(distance: nat, count: nat, out: seq<Byte>) returns (r: Result<seq<Byte>>)
      requires Valid()
      modifies this`index, this`stream, history
      ensures Valid()
      ensures r.Err? <==> distance == 0 || distance > HISTORY_SIZE || distance > |old(stream)|
      ensures r.Err? ==> stream == old(stream)
      ensures r.Ok? ==> stream == CopyMatch(old(stream), distance, count) && r.value == out + stream[|old(stream)|..]
    {
      if distance == 0 || distance > HISTORY_SIZE {
        return Err;
      }
      if distance > index {
        return Err;
      }
      hide Holds, CopyMatch, Slot;
      var out' := out;
      ghost var h := stream;
      for i := 0 to count
        invariant Valid() && |stream| == |h| + i && h <= stream && history == old(history)
        invariant CopyMatch(h, distance, count) == CopyMatch(stream, distance, count - i)
        invariant out' == out + stream[|h|..]
      {
        RingAt(history[..], stream, distance);
        CopyStep(stream, distance, count - i);
        var src := (index + HISTORY_SIZE - distance) % HISTORY_SIZE;
        var b := history[src];
        out' := WriteByte(b, out');
      }
      CopyNothing(stream, distance);
      return Ok(out');
    }

    /** The raw bytes of an unencoded run. */
    method CopyRaw(reader: BitReader, count: nat, out: seq<Byte>) returns (out': seq<Byte>)
      requires Valid() && reader.Valid()
      modifies this`index, this`stream, history, reader
      ensures Valid() && reader.Valid()
      ensures var (bytes, c) := RawBytes(old(reader.View()), count);
              reader.View() == c && stream == old(stream) + bytes && out' == out + bytes
    {
      hide Holds, Get, RawBytes;
      out' := out;
      ghost var all := RawBytes(reader.View(), count);
      ghost var bytes: seq<Byte> := [];
      for i := 0 to count
        invariant Valid() && reader.Valid() && history == old(history)
        invariant all.0 == bytes + RawBytes(reader.View(), count - i).0 && all.1 == RawBytes(reader.View(), count - i).1
        invariant stream == old(stream) + bytes && out' == out + bytes
      {
        RawStep(reader.View(), count - i);
        var b := reader.GetBits(8);
        out' := WriteByte(b, out');
        bytes := bytes + [b];
      }
      RawNothing(reader.View());
    }

    /** One token of a compressed segment. */
    method DecodeOne(reader: BitReader, out: seq<Byte>) returns (r: Result<seq<Byte>>)
      requires Valid() && reader.Valid() && reader.bitsRemaining > 0
      modifies this`index, this`stream, history, reader
      ensures Valid() && reader.Valid()
      ensures r.Ok? ==> reader.View().pos > old(reader.View().pos)
      ensures r.Ok? ==>
                DecodeBody(old(reader.View()), reader.Limit(), old(stream)) == DecodeBody(reader.View(), reader.Limit(), stream)
      ensures r.Ok? ==> old(stream) <= stream && r.value == out + stream[|old(stream)|..]
      ensures r.Err? ==> DecodeBody(old(reader.View()), reader.Limit(), old(stream)) == Outcome(stream, false)
    {
      hide Holds, Get, TokenFrom, RawBytes, DecodeBody, DecodeLength, CopyMatch, TokenTable, Align;
      ghost var h, c, limit := stream, reader.View(), reader.Limit();
      var token := DecodeToken(reader);
      if token.None? {
        BodyNoToken(c, limit, h);
        return Err;
      }
      TableWidths(token.value);
      var row := TokenTable()[token.value];
      ghost var c1 := reader.View();
      var v := reader.GetBits(row.valueBits);
      ghost var c2 := reader.View();
      if !row.isMatch {
        BodyLiteral(c, limit, h, token.value, c1, v, c2);
        var out' := WriteByte((row.valueBase + v) % 0x100, out);
        return Ok(out');
      }
      var distance := row.valueBase + v;
      if distance == 0 {
        var count := reader.GetBits(15);
        reader.ByteAlign();
        var out' := CopyRaw(reader, count, out);
        BodyRaw(c, limit, h, token.value, c1, v, c2);
        return Ok(out');
      }
      var count := DecodeLengthField(reader);
      if count.None? {
        BodyNoLength(c, limit, h, token.value, c1, v, c2);
        return Err;
      }
      BodyMatch(c, limit, h, token.value, c1, v, c2, count.value, reader.View());
      if distance <= |h| {
        CopyIsPeriodic(h, distance, count.value);
      }
      r := CopyFrom(distance, count.value, out);
    }

    /** One message of the graphics channel. The history keeps what was decoded before an error. */
    method Decompress(data: seq<Byte>) returns (r: Result<seq<Byte>>)
      requires Valid()
      modifies this`index, this`stream, history
      ensures Valid()
      ensures DecodeMessage(data, old(stream)) == Outcome(stream, r.Ok?)
      ensures r.Ok? ==> stream == old(stream) + r.value
    {
      hide Holds, DecodeSegment, DecodeParts;
      if data == [] {
        return Err;
      }
      var rest := data[1..];
      if data[0] == DESCRIPTOR_SINGLE {
        r := DecompressSegment(rest);
        return;
      }
      if data[0] != DESCRIPTOR_MULTIPART || |rest| < 6 {
        return Err;
      }
      r := DecompressParts(rest, Le16(rest[0], rest[1]));
    }

    method DecompressParts(rest: seq<Byte>, segmentCount: nat) returns (r: Result<seq<Byte>>)
      requires Valid() && |rest| >= 6
      modifies this`index, this`stream, history
      ensures Valid()
      ensures DecodeParts(rest, 6, segmentCount, old(stream)) == Outcome(stream, r.Ok?)
      ensures r.Ok? ==> stream == old(stream) + r.value
    {
      hide Holds, DecodeSegment, DecodeParts, Le32;
      var pos: nat := 6;
      var out: seq<Byte> := [];
      for i := 0 to segmentCount
        invariant Valid() && history == old(history) && pos <= |rest|
        invariant DecodeParts(rest, 6, segmentCount, old(stream)) == DecodeParts(rest, pos, segmentCount - i, stream)
        invariant stream == old(stream) + out
      {
        if pos + 4 > |rest| {
          PartsTruncated(rest, pos, segmentCount - i, stream);
          return Err;
        }
        var size: nat := Le32(rest[pos], rest[pos + 1], rest[pos + 2], rest[pos + 3]);
        if pos + 4 + size > |rest| {
          PartsTruncated(rest, pos, segmentCount - i, stream);
          return Err;
        }
        ghost var h := stream;
        pos := pos + 4;
        var segment := DecompressSegment(rest[pos..pos + size]);
        PartsStep(rest, pos - 4, segmentCount - i, h, size, Outcome(stream, segment.Ok?));
        if segment.Err? {
          return Err;
        }
        out := out + segment.value;
        pos := pos + size;
      }
      PartsEnd(rest, pos, stream);
      return Ok(out);
    }

    /** One segment. The history keeps what was decoded before an error. */
    method DecompressSegment(segment: seq<Byte>) returns (r: Result<seq<Byte>>)
      requires Valid()
      modifies this`index, this`stream, history
      ensures Valid()
      ensures DecodeSegment(segment, old(stream)) == Outcome(stream, r.Ok?)
      ensures r.Ok? ==> stream == old(stream) + r.value
    {
      hide Holds, DecodeBody;
      if segment == [] {
        return Err;
      }
      var flags, data := segment[0], segment[1..];
      var out: seq<Byte> := [];
      if !Compressed(flags) {
        for i := 0 to |data|
          invariant Valid() && history == old(history)
          invariant out == data[..i] && stream == old(stream) + out
        {
          out := WriteByte(data[i], out);
        }
        return Ok(out);
      }
      if data == [] {
        return Err;
      }
      var reader := new BitReader(data);
      assert data[..|data| - 1] == segment[1..|segment| - 1];
      r := DecompressBody(reader);
    }

    /** The token loop of a compressed segment. */
    method DecompressBody(reader: BitReader) returns (r: Result<seq<Byte>>)
      requires Valid() && reader.Valid()
      modifies this`index, this`stream, history, reader
      ensures Valid()
      ensures DecodeBody(old(reader.View()), reader.Limit(), old(stream)) == Outcome(stream, r.Ok?)
      ensures r.Ok? ==> stream == old(stream) + r.value
    {
      hide Holds, DecodeBody;
      var out: seq<Byte> := [];
      while reader.bitsRemaining > 0
        invariant Valid() && reader.Valid() && history == old(history)
        invariant DecodeBody(old(reader.View()), reader.Limit(), old(stream)) == DecodeBody(reader.View(), reader.Limit(), stream)
        invariant stream == old(stream) + out
        decreases reader.bitsRemaining
      {
        var next := DecodeOne(reader, out);
        if next.Err? {
          return Err;
        }
        out := next.value;
      }
      BodyEnds(reader.View(), reader.Limit(), stream);
      return Ok(out);
    }
  }

  lemma TableWidths(i: nat)
    requires i < ROWS
    ensures TokenTable()[i].valueBits <= 24
  {
    hide TokenTable;
    TableWidthsOf(i);
  }

  lemma TableWidthsOf(i: nat)
    requires i < ROWS
    ensures TokenTable()[i].valueBits <= 24
  {
  }

  lemma RawNothing(c: Cursor)
    ensures RawBytes(c, 0) == ([], c)
  {
  }

  lemma RawStep(c: Cursor, n: nat)
    requires n > 0
    ensures Get(c, 8).0 < 0x100
    ensures RawBytes(c, n) == ([Get(c, 8).0] + RawBytes(Get(c, 8).1, n - 1).0, RawBytes(Get(c, 8).1, n - 1).1)
  {
    GetBitsZBound(c.rest, 8);
    Pow2Values();
  }
}
