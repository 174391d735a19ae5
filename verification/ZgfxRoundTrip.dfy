/** Decoding a segment gives the LZ77 meaning of the tokens it was encoded from. */
module ZgfxRoundTrip {
  import opened Machine
  import opened Bits
  import opened ZgfxTable
  import opened Zgfx

  lemma GetPutAt(v: nat, n: nat, pos: nat, rest: Stream)
    requires v < Pow2(n)
    ensures Get(Cursor(PutBits(v, n, rest), pos), n) == (v, Cursor(rest, pos + n))
  {
    GetPutZ(v, n, rest);
  }

  lemma GetOne(b: bool, pos: nat, rest: Stream)
    ensures Get(Cursor(Bit(b, rest), pos), 1) == (BitValue(b), Cursor(rest, pos + 1))
  {
    assert GetBitsZ(Bit(b, rest), 1, 0) == GetBitsZ(rest, 0, BitValue(b));
  }

  /** Reading on from the first `len - 1` bits of a row's code ends at that row. */
  lemma {:induction false} TokenFromRow(i: nat, row: TokenRow, len: nat, pos: nat, rest: Stream)
    requires i < ROWS && row == TokenTable()[i] && 1 <= len <= row.len <= 9
    ensures TokenFrom(Cursor(PutBits(row.code, row.len - len + 1, rest), pos), len, Shr(row.code, row.len - len + 1))
            == Some((i, Cursor(rest, pos + row.len - len + 1)))
    decreases row.len - len
  {
    hide PutBits, Shr, FindRow, Get, TokenFrom, TokenTable;
    var n := row.len - len + 1;
    var b := Shr(row.code, n - 1) % 2 == 1;
    var less := PutBits(row.code, n - 1, rest);
    PutBitsHead(row.code, n, rest);
    GetOne(b, pos, less);
    ShrHalves(row.code, n - 1);
    LookupAlongRow(i, row, len);
    if len < row.len {
      TokenContinues(Cursor(Bit(b, less), pos), len, Shr(row.code, n), BitValue(b), Cursor(less, pos + 1));
      TokenFromRow(i, row, len + 1, pos + 1, rest);
    } else {
      TokenFound(Cursor(Bit(b, less), pos), len, Shr(row.code, n), BitValue(b), Cursor(less, pos + 1), i);
      NoBits(row.code, rest);
    }
  }

  lemma LookupAlongRow(i: nat, row: TokenRow, len: nat)
    requires i < ROWS && row == TokenTable()[i] && 1 <= len <= row.len
    ensures FindRow(len, Shr(row.code, row.len - len), 0) == if len == row.len then Some(i) else None
  {
    hide FindRow, Shr, TokenTable;
    LookupAlongCode(i, len);
  }

  lemma NoBits(v: nat, rest: Stream)
    ensures PutBits(v, 0, rest) == rest
  {
  }

  lemma RowRoundTrip(i: nat, extra: nat, pos: nat, rest: Stream)
    requires i < |TokenTable()| && extra < Pow2(TokenTable()[i].valueBits)
    ensures var row := TokenTable()[i];
            var c := Cursor(PutBits(extra, row.valueBits, rest), pos + row.len);
            && TokenFrom(Cursor(EncodeRow(i, extra, rest), pos), 1, 0) == Some((i, c))
            && Get(c, row.valueBits) == (extra, Cursor(rest, pos + RowBits(i)))
  {
    hide PutBits, Shr, Get, TokenFrom, Pow2, TokenTable;
    CodeFitsLength(i);
    var row := TokenTable()[i];
    ShrSmall(row.code, row.len);
    TokenFromRow(i, row, 1, pos, PutBits(extra, row.valueBits, rest));
    GetPutAt(extra, row.valueBits, pos + row.len, rest);
  }

  lemma {:induction false} UnaryRoundTrip(v: nat, extra: nat, e: nat, pos: nat, rest: Stream)
    requires extra <= e <= 15 && v < Pow2(e)
    ensures UnaryLength(Cursor(Repeat(true, e - extra, Bit(false, PutBits(v, e, rest))), pos), Pow2(extra), extra)
         == Some((Pow2(e) + v, Cursor(rest, pos + e - extra + 1 + e)))
    decreases e - extra
  {
    hide PutBits, Get;
    if extra < e {
      GetOne(true, pos, Repeat(true, e - extra - 1, Bit(false, PutBits(v, e, rest))));
      UnaryRoundTrip(v, extra + 1, e, pos + 1, rest);
    } else {
      GetOne(false, pos, PutBits(v, e, rest));
      GetPutAt(v, e, pos + 1, rest);
    }
  }

  lemma LengthRoundTrip(length: nat, pos: nat, rest: Stream)
    requires 3 <= length <= 65535
    ensures DecodeLength(Cursor(EncodeLength(length, rest), pos)) == Some((length, Cursor(rest, pos + LengthBits(length))))
  {
    hide PutBits, Get, UnaryLength, Exponent;
    if length == 3 {
      GetOne(false, pos, rest);
    } else {
      var e := LengthExponent(length);
      GetOne(true, pos, Repeat(true, e - 2, Bit(false, PutBits(length - Pow2(e), e, rest))));
      assert Pow2(2) == 4;
      UnaryRoundTrip(length - Pow2(e), 2, e, pos + 1, rest);
    }
  }

  lemma {:induction false} BytesRoundTrip(bytes: seq<Byte>, pos: nat, rest: Stream)
    ensures RawBytes(Cursor(EncodeBytes(bytes, rest), pos), |bytes|) == (bytes, Cursor(rest, pos + 8 * |bytes|))
    decreases |bytes|
  {
    hide PutBits, Get;
    if bytes != [] {
      Pow2Values();
      GetPutAt(bytes[0], 8, pos, EncodeBytes(bytes[1..], rest));
      BytesRoundTrip(bytes[1..], pos + 8, rest);
      assert bytes == [bytes[0]] + bytes[1..];
    }
  }

  lemma {:induction false} SkipRepeat(n: nat, rest: Stream)
    ensures SkipZ(Repeat(false, n, rest), n) == rest
  {
    if n > 0 {
      SkipRepeat(n - 1, rest);
    }
  }

  lemma LiteralRoundTrip(row: nat, extra: nat, pos: nat, h: History, rest: Stream, limit: int)
    requires Legal(Literal(row, extra), h) && pos < limit
    ensures DecodeBody(Cursor(EncodeRow(row, extra, rest), pos), limit, h)
         == DecodeBody(Cursor(rest, pos + RowBits(row)), limit, Meaning(Literal(row, extra), h))
  {
    hide PutBits, Get, TokenFrom, Pow2, DecodeLength, RawBytes, EncodeRow, CopyMatch, TokenTable;
    RowRoundTrip(row, extra, pos, rest);
  }

  lemma MatchRoundTrip(row: nat, extra: nat, length: nat, pos: nat, h: History, rest: Stream, limit: int)
    requires Legal(Match(row, extra, length), h) && pos < limit
    ensures DecodeBody(Cursor(EncodeRow(row, extra, EncodeLength(length, rest)), pos), limit, h)
         == DecodeBody(Cursor(rest, pos + RowBits(row) + LengthBits(length)), limit, Meaning(Match(row, extra, length), h))
  {
    hide PutBits, Get, TokenFrom, Pow2, DecodeLength, EncodeLength, RawBytes, EncodeRow, CopyMatch, LengthBits, TokenTable;
    RowRoundTrip(row, extra, pos, EncodeLength(length, rest));
    LengthRoundTrip(length, pos + RowBits(row), rest);
  }

  /** Decoding one token's code goes on behind it with the token's meaning in the history. */
  lemma TokenRoundTrip(t: Token, pos: nat, h: History, rest: Stream, limit: int)
    requires Legal(t, h) && pos < limit
    ensures DecodeBody(Cursor(EncodeToken(t, pos, h, rest), pos), limit, h)
         == DecodeBody(Cursor(rest, pos + TokenBits(t, pos, h)), limit, Meaning(t, h))
  {
    hide DecodeBody, EncodeLength, EncodeRow, LengthBits, RowBits, CopyMatch, Legal, Pow2;
    match t
    case Literal(row, extra) =>
      LiteralRoundTrip(row, extra, pos, h, rest, limit);
    case Match(row, extra, length) =>
      MatchRoundTrip(row, extra, length, pos, h, rest, limit);
    case Raw(bytes) =>
      RawIsLegal(bytes, h);
      RawRoundTrip(bytes, pos, h, rest, limit);
  }

  lemma RawIsLegal(bytes: seq<Byte>, h: History)
    ensures Legal(Raw(bytes), h) <==> |bytes| <= 32767
  {
  }

  lemma RawRowIs()
    ensures RAW_ROW < |TokenTable()| && TokenTable()[RAW_ROW].isMatch && TokenTable()[RAW_ROW].valueBase == 0
  {
  }

  lemma RawRoundTrip(bytes: seq<Byte>, pos: nat, h: History, rest: Stream, limit: int)
    requires |bytes| <= 32767 && pos < limit
    ensures DecodeBody(Cursor(EncodeToken(Raw(bytes), pos, h, rest), pos), limit, h)
         == DecodeBody(Cursor(rest, pos + TokenBits(Raw(bytes), pos, h)), limit, h + bytes)
  {
    hide PutBits, Get, TokenFrom, Pow2, DecodeBody, RawBytes, EncodeBytes, EncodeRow, SkipZ, PadLength, TokenTable, Repeat;
    Pow2Values();
    RawRowIs();
    var at := pos + RowBits(RAW_ROW);
    var pad := PadLength(at + 15);
    var s := Repeat(false, pad, EncodeBytes(bytes, rest));
    var row := TokenTable()[RAW_ROW];
    RowRoundTrip(RAW_ROW, 0, pos, PutBits(|bytes|, 15, s));
    GetPutAt(|bytes|, 15, at, s);
    SkipRepeat(pad, EncodeBytes(bytes, rest));
    BytesRoundTrip(bytes, at + 15 + pad, rest);
    BodyRaw(Cursor(EncodeToken(Raw(bytes), pos, h, rest), pos), limit, h, RAW_ROW,
            Cursor(PutBits(0, row.valueBits, PutBits(|bytes|, 15, s)), pos + row.len), 0, Cursor(PutBits(|bytes|, 15, s), at));
  }

  lemma {:induction false} BodyRoundTrip(ts: seq<Token>, pos: nat, h: History, pad: nat)
    requires AllLegal(ts, h)
    ensures DecodeBody(Cursor(EncodeAll(ts, pos, h, pad), pos), EndOf(ts, pos, h), h) == Outcome(MeaningOfAll(ts, h), true)
    decreases |ts|
  {
    hide EncodeToken, TokenBits, Meaning, Legal, DecodeBody;
    if ts == [] {
      NothingLeft(Zeros(pad), pos, h);
    } else {
      var next, h' := pos + TokenBits(ts[0], pos, h), Meaning(ts[0], h);
      BodyRoundTrip(ts[1..], next, h', pad);
      TokenIsSomething(ts[0], pos, h);
      TokenRoundTrip(ts[0], pos, h, EncodeAll(ts[1..], next, h', pad), EndOf(ts, pos, h));
    }
  }

  lemma NothingLeft(s: Stream, pos: nat, h: History)
    ensures DecodeBody(Cursor(s, pos), pos, h) == Outcome(h, true)
  {
  }

  lemma TokenIsSomething(t: Token, pos: nat, h: History)
    requires Legal(t, h)
    ensures TokenBits(t, pos, h) > 0
  {
    if t.Literal? || t.Match? {
      CodeFitsLength(t.row);
    }
  }

  // ---------- Whole segments and messages ----------

  lemma {:induction false} AppendBytes(bytes: seq<Byte>, rest: Stream, zeros: nat)
    ensures Append(EncodeBytes(bytes, rest), zeros) == EncodeBytes(bytes, Append(rest, zeros))
    decreases |bytes|
  {
    if bytes != [] {
      AppendPutBits(bytes[0], 8, EncodeBytes(bytes[1..], rest), zeros);
      AppendBytes(bytes[1..], rest, zeros);
    }
  }

  lemma AppendRow(row: nat, extra: nat, rest: Stream, zeros: nat)
    requires row < |TokenTable()|
    ensures Append(EncodeRow(row, extra, rest), zeros) == EncodeRow(row, extra, Append(rest, zeros))
  {
    AppendPutBits(TokenTable()[row].code, TokenTable()[row].len, PutBits(extra, TokenTable()[row].valueBits, rest), zeros);
    AppendPutBits(extra, TokenTable()[row].valueBits, rest, zeros);
  }

  lemma AppendLength(length: nat, rest: Stream, zeros: nat)
    requires 3 <= length <= 65535
    ensures Append(EncodeLength(length, rest), zeros) == EncodeLength(length, Append(rest, zeros))
  {
    hide LengthExponent;
    if length > 3 {
      var e := LengthExponent(length);
      var s := PutBits(length - Pow2(e), e, rest);
      AppendRepeat(true, e - 2, Bit(false, s), zeros);
      AppendPutBits(length - Pow2(e), e, rest, zeros);
    }
  }

  lemma AppendToken(t: Token, pos: nat, h: History, rest: Stream, zeros: nat)
    requires Legal(t, h)
    ensures Append(EncodeToken(t, pos, h, rest), zeros) == EncodeToken(t, pos, h, Append(rest, zeros))
  {
    hide EncodeRow, EncodeLength, PutBits, Repeat, EncodeBytes;
    match t
    case Literal(row, extra) =>
      AppendRow(row, extra, rest, zeros);
    case Match(row, extra, length) =>
      AppendRow(row, extra, EncodeLength(length, rest), zeros);
      AppendLength(length, rest, zeros);
    case Raw(bytes) =>
        var pad := PadLength(pos + RowBits(RAW_ROW) + 15);
      var s := Repeat(false, pad, EncodeBytes(bytes, rest));
      AppendRow(RAW_ROW, 0, PutBits(|bytes|, 15, s), zeros);
      AppendPutBits(|bytes|, 15, s, zeros);
      AppendRepeat(false, pad, EncodeBytes(bytes, rest), zeros);
      AppendBytes(bytes, rest, zeros);
  }

  lemma {:induction false} AppendAll(ts: seq<Token>, pos: nat, h: History, pad: nat, zeros: nat)
    requires AllLegal(ts, h)
    ensures Append(EncodeAll(ts, pos, h, pad), zeros) == EncodeAll(ts, pos, h, pad + zeros)
    decreases |ts|
  {
    hide EncodeToken, TokenBits, Meaning, Legal;
    if ts == [] {
      AppendZeros(pad, zeros);
    } else {
      var next, h' := pos + TokenBits(ts[0], pos, h), Meaning(ts[0], h);
      AppendAll(ts[1..], next, h', pad, zeros);
      AppendToken(ts[0], pos, h, EncodeAll(ts[1..], next, h', pad), zeros);
    }
  }

  // The length of an encoded stream is the number of bits its tokens take.

  lemma {:induction false} RepeatLength(b: bool, n: nat, rest: Stream)
    ensures Length(Repeat(b, n, rest)) == n + Length(rest)
  {
    if n > 0 {
      RepeatLength(b, n - 1, rest);
    }
  }

  lemma {:induction false} BytesLength(bytes: seq<Byte>, rest: Stream)
    ensures Length(EncodeBytes(bytes, rest)) == 8 * |bytes| + Length(rest)
    decreases |bytes|
  {
    if bytes != [] {
      PutBitsLength(bytes[0], 8, EncodeBytes(bytes[1..], rest));
      BytesLength(bytes[1..], rest);
    }
  }

  lemma RowLength(row: nat, extra: nat, rest: Stream)
    requires row < |TokenTable()|
    ensures Length(EncodeRow(row, extra, rest)) == RowBits(row) + Length(rest)
  {
    PutBitsLength(TokenTable()[row].code, TokenTable()[row].len, PutBits(extra, TokenTable()[row].valueBits, rest));
    PutBitsLength(extra, TokenTable()[row].valueBits, rest);
  }

  lemma LengthLength(length: nat, rest: Stream)
    requires 3 <= length <= 65535
    ensures Length(EncodeLength(length, rest)) == LengthBits(length) + Length(rest)
  {
    hide LengthExponent;
    if length > 3 {
      var e := LengthExponent(length);
      var s := PutBits(length - Pow2(e), e, rest);
      RepeatLength(true, e - 2, Bit(false, s));
      PutBitsLength(length - Pow2(e), e, rest);
    }
  }

  lemma TokenLength(t: Token, pos: nat, h: History, rest: Stream)
    requires Legal(t, h)
    ensures Length(EncodeToken(t, pos, h, rest)) == TokenBits(t, pos, h) + Length(rest)
  {
    hide EncodeRow, EncodeLength, PutBits, Repeat, EncodeBytes, RowBits, LengthBits;
    match t
    case Literal(row, extra) =>
      RowLength(row, extra, rest);
    case Match(row, extra, length) =>
      RowLength(row, extra, EncodeLength(length, rest));
      LengthLength(length, rest);
    case Raw(bytes) =>
        var pad := PadLength(pos + RowBits(RAW_ROW) + 15);
      var s := Repeat(false, pad, EncodeBytes(bytes, rest));
      RowLength(RAW_ROW, 0, PutBits(|bytes|, 15, s));
      PutBitsLength(|bytes|, 15, s);
      RepeatLength(false, pad, EncodeBytes(bytes, rest));
      BytesLength(bytes, rest);
  }

  lemma {:induction false} EncodedLength(ts: seq<Token>, pos: nat, h: History)
    requires AllLegal(ts, h)
    ensures Length(EncodeAll(ts, pos, h, 0)) == EndOf(ts, pos, h) - pos
    decreases |ts|
  {
    hide EncodeToken, TokenBits, Meaning, Legal;
    if ts != [] {
      var next, h' := pos + TokenBits(ts[0], pos, h), Meaning(ts[0], h);
      EncodedLength(ts[1..], next, h');
      TokenLength(ts[0], pos, h, EncodeAll(ts[1..], next, h', 0));
    }
  }

  /** The sender's segment: the compressed flag, the packed tokens, and how many bits of the last byte are unused. */
  function EncodeSegment(ts: seq<Token>, h: History): seq<Byte>
    requires AllLegal(ts, h)
  {
    var s := EncodeAll(ts, 0, h, 0);
    [PACKET_COMPRESSED] + Pack(s) + [PadLength(Length(s))]
  }

  /** A segment decodes to the LZ77 meaning of the tokens it was encoded from. */
  lemma SegmentRoundTrip(ts: seq<Token>, h: History)
    requires AllLegal(ts, h)
    ensures DecodeSegment(EncodeSegment(ts, h), h) == Outcome(MeaningOfAll(ts, h), true)
  {
    hide EncodeAll, MeaningOfAll, DecodeBody, Pack, StreamOf, Append, EndOf, Length, AllLegal;
    var s := EncodeAll(ts, 0, h, 0);
    var body, pad := Pack(s), PadLength(Length(s));
    var segment := EncodeSegment(ts, h);
    assert segment[1..|segment| - 1] == body && segment[|segment| - 1] == pad && segment[0] == PACKET_COMPRESSED;
    StreamOfPack(s);
    PackLength(s);
    EncodedLength(ts, 0, h);
    AppendAll(ts, 0, h, 0, pad);
    BodyRoundTrip(ts, 0, h, pad);
  }

  lemma PackLength(s: Stream)
    ensures 8 * |Pack(s)| == Length(s) + PadLength(Length(s))
  {
    StreamOfPack(s);
    AppendLengthIs(s, PadLength(Length(s)));
  }

  lemma {:induction false} AppendLengthIs(s: Stream, zeros: nat)
    ensures Length(Append(s, zeros)) == Length(s) + zeros
  {
    match s
    case End => ZerosLength(zeros);
    case Bit(_, t) => AppendLengthIs(t, zeros);
  }
}
