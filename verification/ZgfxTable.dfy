/** The prefix code of RDP 8.0 bulk compression (section 3.1.9.1.2 of MS-RDPEGFX). */
module ZgfxTable {
  import opened Machine

  datatype TokenRow = TokenRow(len: nat, code: nat, valueBits: nat, isMatch: bool, valueBase: nat)

  const ROWS := 40

  function TokenTable(): (r: seq<TokenRow>)
    ensures |r| == ROWS
  {
    [
      TokenRow(1, 0, 8, false, 0),
      TokenRow(5, 17, 5, true, 0),
      TokenRow(5, 18, 7, true, 32),
      TokenRow(5, 19, 9, true, 160),
      TokenRow(5, 20, 10, true, 672),
      TokenRow(5, 21, 12, true, 1696),
      TokenRow(5, 24, 0, false, 0x00),
      TokenRow(5, 25, 0, false, 0x01),
      TokenRow(6, 44, 14, true, 5792),
      TokenRow(6, 45, 15, true, 22176),
      TokenRow(6, 52, 0, false, 0x02),
      TokenRow(6, 53, 0, false, 0x03),
      TokenRow(6, 54, 0, false, 0xFF),
      TokenRow(7, 92, 18, true, 54944),
      TokenRow(7, 93, 20, true, 317088),
      TokenRow(7, 110, 0, false, 0x04),
      TokenRow(7, 111, 0, false, 0x05),
      TokenRow(7, 112, 0, false, 0x06),
      TokenRow(7, 113, 0, false, 0x07),
      TokenRow(7, 114, 0, false, 0x08),
      TokenRow(7, 115, 0, false, 0x09),
      TokenRow(7, 116, 0, false, 0x0A),
      TokenRow(7, 117, 0, false, 0x0B),
      TokenRow(7, 118, 0, false, 0x3A),
      TokenRow(7, 119, 0, false, 0x3B),
      TokenRow(7, 120, 0, false, 0x3C),
      TokenRow(7, 121, 0, false, 0x3D),
      TokenRow(7, 122, 0, false, 0x3E),
      TokenRow(7, 123, 0, false, 0x3F),
      TokenRow(7, 124, 0, false, 0x40),
      TokenRow(7, 125, 0, false, 0x80),
      TokenRow(8, 188, 20, true, 1365664),
      TokenRow(8, 189, 21, true, 2414240),
      TokenRow(8, 252, 0, false, 0x0C),
      TokenRow(8, 253, 0, false, 0x38),
      TokenRow(8, 254, 0, false, 0x39),
      TokenRow(8, 255, 0, false, 0x66),
      TokenRow(9, 380, 22, true, 4511392),
      TokenRow(9, 381, 23, true, 8705696),
      TokenRow(9, 382, 24, true, 17094304)
    ]
  }

  /** The lengths and codes of the table in closed form. */
  predicate Shape(i: nat, len: nat, code: nat) {
    if i == 0 then len == 1 && code == 0
    else if i < 8 then len == 5 && code == (if i < 6 then 16 + i else 18 + i)
    else if i < 13 then len == 6 && code == (if i < 10 then 36 + i else 42 + i)
    else if i < 31 then len == 7 && code == (if i < 15 then 79 + i else 95 + i)
    else if i < 37 then len == 8 && code == (if i < 33 then 157 + i else 219 + i)
    else i < 40 && len == 9 && code == 343 + i
  }

  lemma TableShape(i: nat)
    requires i < ROWS
    ensures Shape(i, TokenTable()[i].len, TokenTable()[i].code)
  {
    assert i == 0 || i == 1 || i == 2 || i == 3 || i == 4 || i == 5 || i == 6 || i == 7 || i == 8 || i == 9 ||
           i == 10 || i == 11 || i == 12 || i == 13 || i == 14 || i == 15 || i == 16 || i == 17 || i == 18 || i == 19 ||
           i == 20 || i == 21 || i == 22 || i == 23 || i == 24 || i == 25 || i == 26 || i == 27 || i == 28 || i == 29 ||
           i == 30 || i == 31 || i == 32 || i == 33 || i == 34 || i == 35 || i == 36 || i == 37 || i == 38 || i == 39;
  }

  /** A code fits in its length. */
  lemma CodeFitsLength(i: nat)
    requires i < ROWS
    ensures 1 <= TokenTable()[i].len <= 9 && TokenTable()[i].code < Pow2(TokenTable()[i].len)
  {
    TableShape(i);
    Pow2Values();
    assert Pow2(5) == 32 && Pow2(6) == 64 && Pow2(7) == 128 && Pow2(9) == 512;
  }

  /** No code is a prefix of another one, and no code occurs twice. */
  lemma PrefixFree(i: nat, j: nat)
    requires i < ROWS && j < ROWS
    requires TokenTable()[j].len <= TokenTable()[i].len
    requires Shr(TokenTable()[i].code, TokenTable()[i].len - TokenTable()[j].len) == TokenTable()[j].code
    ensures i == j
  {
    TableShape(i);
    TableShape(j);
    ShapesPrefixFree(i, TokenTable()[i].len, TokenTable()[i].code, j, TokenTable()[j].len, TokenTable()[j].code);
  }

  lemma ShapesPrefixFree(i: nat, len: nat, code: nat, j: nat, len': nat, code': nat)
    requires Shape(i, len, code) && Shape(j, len', code') && len' <= len && Shr(code, len - len') == code'
    ensures i == j
  {
    ShrLiterals(code, len - len');
    hide Shr;
    if len' < len {
      ShortenedIsNoCode(i, len, code, len - len', j);
    }
  }

  /** The first bits of a code are no code of their own. */
  lemma ShortenedIsNoCode(i: nat, len: nat, code: nat, n: nat, j: nat)
    requires Shape(i, len, code) && 0 < n < len
    ensures !Shape(j, len - n, if n == 1 then code / 2 else if n == 2 then code / 4 else if n == 3 then code / 8 else if n == 4 then code / 16
                               else if n == 5 then code / 32 else if n == 6 then code / 64 else if n == 7 then code / 128 else code / 256)
  {
    if len == 9 {
      assert 95 <= code / 4 <= 95 && 190 <= code / 2 <= 191 && 47 == code / 8 && 23 == code / 16 && 1 == code / 256;
    } else if len == 8 {
      assert code / 2 == 94 || code / 2 == 126 || code / 2 == 127;
    } else if len == 7 {
      assert code / 2 == 46 || 55 <= code / 2 <= 62;
    }
  }

  lemma ShrLiterals(v: nat, n: nat)
    requires n <= 8
    ensures Shr(v, n) == if n == 0 then v else if n == 1 then v / 2 else if n == 2 then v / 4 else if n == 3 then v / 8
                         else if n == 4 then v / 16 else if n == 5 then v / 32 else if n == 6 then v / 64
                         else if n == 7 then v / 128 else v / 256
  {
    if n > 0 {
      ShrLiterals(v / 2, n - 1);
    }
  }

  // ---------- The distances of the match rows ----------

  const MATCH_ROWS: seq<nat> := [1, 2, 3, 4, 5, 8, 9, 13, 14, 31, 32, 37, 38, 39]

  /** Where the distances of each match row start; the last entry ends the longest row. */
  const STARTS: seq<nat> := [0, 32, 160, 672, 1696, 5792, 22176, 54944, 317088, 1365664, 2414240, 4511392, 8705696,
                             17094304, 33871520]

  lemma Pow2Table()
    ensures Pow2(5) == 32 && Pow2(7) == 128 && Pow2(9) == 512 && Pow2(10) == 1024 && Pow2(12) == 4096
    ensures Pow2(14) == 16384 && Pow2(15) == 32768 && Pow2(18) == 262144 && Pow2(20) == 1048576
    ensures Pow2(21) == 2097152 && Pow2(22) == 4194304 && Pow2(23) == 8388608 && Pow2(24) == 16777216
  {
    Pow2Values();
    assert Pow2(5) == 32;
    assert Pow2(17) == 131072 && Pow2(18) == 262144 && Pow2(19) == 524288 && Pow2(20) == 1048576;
    assert Pow2(21) == 2097152 && Pow2(22) == 4194304;
  }

  lemma RowSpan(k: nat)
    requires k < 14
    ensures |MATCH_ROWS| == 14 && |STARTS| == 15 && MATCH_ROWS[k] < ROWS
    ensures var row := TokenTable()[MATCH_ROWS[k]];
            row.isMatch && row.valueBase == STARTS[k] && STARTS[k] + Pow2(row.valueBits) == STARTS[k + 1]
  {
    Pow2Table();
    hide Pow2;
    assert k == 0 || k == 1 || k == 2 || k == 3 || k == 4 || k == 5 || k == 6 || k == 7 || k == 8 || k == 9 ||
           k == 10 || k == 11 || k == 12 || k == 13;
  }

  lemma MatchRowIndex(i: nat) returns (k: nat)
    requires i < ROWS && TokenTable()[i].isMatch
    ensures k < 14 && |MATCH_ROWS| == 14 && MATCH_ROWS[k] == i
  {
    assert i == 0 || i == 1 || i == 2 || i == 3 || i == 4 || i == 5 || i == 6 || i == 7 || i == 8 || i == 9 ||
           i == 10 || i == 11 || i == 12 || i == 13 || i == 14 || i == 15 || i == 16 || i == 17 || i == 18 || i == 19 ||
           i == 20 || i == 21 || i == 22 || i == 23 || i == 24 || i == 25 || i == 26 || i == 27 || i == 28 || i == 29 ||
           i == 30 || i == 31 || i == 32 || i == 33 || i == 34 || i == 35 || i == 36 || i == 37 || i == 38 || i == 39;
    k := if i <= 5 then i - 1 else if i <= 9 then i - 3 else if i <= 14 then i - 6 else if i <= 32 then i - 22 else i - 26;
  }

  /** The row can spell the distance `d`. */
  predicate Spells(i: nat, d: nat) {
    i < |TokenTable()| && TokenTable()[i].isMatch &&
    TokenTable()[i].valueBase <= d < TokenTable()[i].valueBase + Pow2(TokenTable()[i].valueBits)
  }

  /** The match rows tile the distances: every one is spelled by some row, and by only one. */
  lemma DistancesTile(d: nat) returns (i: nat)
    requires d < 33871520
    ensures Spells(i, d)
    ensures forall j: nat :: Spells(j, d) ==> j == i
  {
    var k := 0;
    while STARTS[k + 1] <= d
      invariant k < 14 && STARTS[k] <= d
      decreases 14 - k
    {
      k := k + 1;
    }
    RowSpan(k);
    i := MATCH_ROWS[k];
    forall j: nat | Spells(j, d)
      ensures j == i
    {
      var m := MatchRowIndex(j);
      RowSpan(m);
      StartsAscend(k, m);
    }
  }

  lemma StartsAscend(k: nat, m: nat)
    requires k < 14 && m < 14
    ensures |STARTS| == 15
    ensures k < m ==> STARTS[k + 1] <= STARTS[m]
    ensures m < k ==> STARTS[m + 1] <= STARTS[k]
  {
    Ascend(k + 1, m);
    Ascend(m + 1, k);
  }

  lemma {:induction false} Ascend(a: nat, b: nat)
    requires a <= 14 && b <= 14
    ensures |STARTS| == 15 && (a <= b ==> STARTS[a] <= STARTS[b])
    decreases b
  {
    if a < b {
      Ascend(a, b - 1);
      RowSpan(b - 1);
    }
  }

  // ---------- Looking a code up ----------

  /** The first row from `i` on with this length and code. */
  function FindRow(len: nat, code: nat, i: nat): (r: Option<nat>)
    requires i <= |TokenTable()|
    ensures r.Some? ==> i <= r.value < |TokenTable()|
    ensures r.Some? ==> TokenTable()[r.value].len == len && TokenTable()[r.value].code == code
    ensures r.None? ==> forall j :: i <= j < |TokenTable()| ==> TokenTable()[j].len != len || TokenTable()[j].code != code
    decreases |TokenTable()| - i
  {
    if i == |TokenTable()| then None
    else if TokenTable()[i].len == len && TokenTable()[i].code == code then Some(i)
    else FindRow(len, code, i + 1)
  }

  /** Reading a row's code bit by bit finds no other row on the way, and finds that row at its end. */
  lemma LookupAlongCode(i: nat, len: nat)
    requires i < ROWS && 1 <= len <= TokenTable()[i].len
    ensures FindRow(len, Shr(TokenTable()[i].code, TokenTable()[i].len - len), 0)
         == if len == TokenTable()[i].len then Some(i) else None
  {
    hide FindRow, TokenTable;
    var row := TokenTable()[i];
    assert Shr(row.code, 0) == row.code;
    hide Shr;
    var r := FindRow(len, Shr(row.code, row.len - len), 0);
    if r.Some? {
      PrefixFree(i, r.value);
    }
  }
}
