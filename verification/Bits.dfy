/** Most-significant-bit-first bit streams, shared by every entropy decoder of the client. */
module Bits {
  import opened Machine

  /** The bits still to be read, in reading order. */
  datatype Stream = End | Bit(head: bool, next: Stream)

  function Length(s: Stream): nat {
    match s
    case End => 0
    case Bit(_, t) => 1 + Length(t)
  }

  /** Bit `k` of a byte, counted from the most significant one. */
  predicate ByteBit(b: Byte, k: nat)
    requires k < 8
  {
    Shr(b, 7 - k) % 2 == 1
  }

  /** The bits of a byte string from bit position `pos` on. */
  function StreamOf(data: seq<Byte>, pos: nat): (s: Stream)
    requires pos <= 8 * |data|
    ensures Length(s) == 8 * |data| - pos
    decreases 8 * |data| - pos
  {
    if pos == 8 * |data| then End else Bit(ByteBit(data[pos / 8], pos % 8), StreamOf(data, pos + 1))
  }

  function Zeros(n: nat): Stream {
    if n == 0 then End else Bit(false, Zeros(n - 1))
  }

  // ---------- Writing: each function puts its bits in front of `rest` ----------

  function Repeat(b: bool, n: nat, rest: Stream): Stream {
    if n == 0 then rest else Bit(b, Repeat(b, n - 1, rest))
  }

  /** The `n` low bits of `v`, most significant first. */
  function PutBits(v: nat, n: nat, rest: Stream): Stream
    decreases n
  {
    if n == 0 then rest else PutBits(v / 2, n - 1, Bit(v % 2 == 1, rest))
  }

  /** The number that the `n` low bits of `v` spell. */
  function Low(v: int, n: nat): (r: nat)
    ensures r < Pow2(n)
    decreases n
  {
    if n == 0 then 0 else 2 * Low(v / 2, n - 1) + v % 2
  }

  // ---------- Reading ----------

  function BitValue(b: bool): nat {
    if b then 1 else 0
  }

  /** Reads `n` bits behind the bits already in `acc`; the stream must have them. */
  function GetBits(s: Stream, n: nat, acc: nat): (nat, Stream)
    requires n <= Length(s)
  {
    if n == 0 then (acc, s) else GetBits(s.next, n - 1, 2 * acc + BitValue(s.head))
  }

  /** Reads `n` bits, zeros standing in for those behind the end of the stream. */
  function GetBitsZ(s: Stream, n: nat, acc: nat): (nat, Stream)
    decreases n
  {
    if n == 0 then (acc, s)
    else match s
      case End => GetBitsZ(End, n - 1, 2 * acc)
      case Bit(b, t) => GetBitsZ(t, n - 1, 2 * acc + BitValue(b))
  }

  function RunLength(s: Stream, target: bool): (n: nat)
    ensures n <= Length(s)
  {
    match s
    case End => 0
    case Bit(b, t) => if b == target then 1 + RunLength(t, target) else 0
  }

  function Skip(s: Stream, n: nat): (r: Stream)
    requires n <= Length(s)
    ensures Length(r) == Length(s) - n
  {
    if n == 0 then s else Skip(s.next, n - 1)
  }

  // ---------- Facts ----------

  lemma {:induction false} GetBitsLength(s: Stream, n: nat, acc: nat)
    requires n <= Length(s)
    ensures GetBits(s, n, acc).1 == Skip(s, n)
    ensures GetBitsZ(s, n, acc) == GetBits(s, n, acc)
  {
    if n > 0 {
      GetBitsLength(s.next, n - 1, 2 * acc + BitValue(s.head));
    }
  }

  lemma {:induction false} PutBitsLength(v: nat, n: nat, rest: Stream)
    ensures Length(PutBits(v, n, rest)) == n + Length(rest)
    decreases n
  {
    if n > 0 {
      PutBitsLength(v / 2, n - 1, Bit(v % 2 == 1, rest));
    }
  }

  /** `acc` extended by the `n` low bits of `v`. */
  function Extend(acc: nat, v: nat, n: nat): nat
    decreases n
  {
    if n == 0 then acc else 2 * Extend(acc, v / 2, n - 1) + v % 2
  }

  lemma {:induction false} GetAfterPut(v: nat, n: nat, m: nat, acc: nat, rest: Stream)
    requires m <= Length(rest)
    ensures n + m <= Length(PutBits(v, n, rest))
    ensures GetBits(PutBits(v, n, rest), n + m, acc) == GetBits(rest, m, Extend(acc, v, n))
    decreases n
  {
    PutBitsLength(v, n, rest);
    if n > 0 {
      GetAfterPut(v / 2, n - 1, m + 1, acc, Bit(v % 2 == 1, rest));
    }
  }

  lemma {:induction false} ExtendNothing(v: nat, n: nat)
    ensures Extend(0, v, n) == Low(v, n)
    decreases n
  {
    if n > 0 {
      ExtendNothing(v / 2, n - 1);
    }
  }

  /** Bits written are the bits read back. */
  lemma GetPut(v: nat, n: nat, rest: Stream)
    ensures n <= Length(PutBits(v, n, rest))
    ensures GetBits(PutBits(v, n, rest), n, 0) == (Low(v, n), rest)
  {
    GetAfterPut(v, n, 0, 0, rest);
    ExtendNothing(v, n);
  }

  lemma {:induction false} LowIsAll(v: nat, n: nat)
    requires v < Pow2(n)
    ensures Low(v, n) == v
    decreases n
  {
    if n > 0 {
      LowIsAll(v / 2, n - 1);
    }
  }

  /** Splitting a number into its `n` low bits and the rest. */
  lemma {:induction false} SplitLow(v: int, n: nat)
    ensures v == Shl(Shr(v, n), n) + Low(v, n)
    decreases n
  {
    if n > 0 {
      SplitLow(v / 2, n - 1);
    }
  }

  lemma {:induction false} RunLengthRepeat(b: bool, n: nat, rest: Stream)
    requires rest.Bit? ==> rest.head != b
    ensures RunLength(Repeat(b, n, rest), b) == n
    ensures n <= Length(Repeat(b, n, rest)) && Skip(Repeat(b, n, rest), n) == rest
    ensures Length(Repeat(b, n, rest)) == n + Length(rest)
  {
    if n > 0 {
      RunLengthRepeat(b, n - 1, rest);
    }
  }

  lemma {:induction false} ZerosLength(m: nat)
    ensures Length(Zeros(m)) == m && RunLength(Zeros(m), false) == m
  {
    if m > 0 {
      ZerosLength(m - 1);
    }
  }

  lemma {:induction false} GetZeros(n: nat, less: nat)
    ensures Length(Zeros(n + less)) == n + less
    ensures GetBits(Zeros(n + less), n, 0) == (0, Zeros(less))
  {
    ZerosLength(n + less);
    if n > 0 {
      GetZeros(n - 1, less);
      var t := Zeros(n - 1 + less);
      assert Zeros(n + less) == Bit(false, t);
      assert GetBits(Bit(false, t), n, 0) == GetBits(t, n - 1, 0);
    }
  }

  lemma {:induction false} SkipOneMore(s: Stream, n: nat)
    requires n < Length(s)
    ensures Skip(s, n).Bit? && Skip(s, n + 1) == Skip(s, n).next
  {
    if n > 0 {
      SkipOneMore(s.next, n - 1);
    }
  }

  // ---------- Packing into bytes ----------

  function HeadZ(s: Stream): bool {
    s.Bit? && s.head
  }

  function NextZ(s: Stream): Stream {
    if s.Bit? then s.next else End
  }

  function SkipZ(s: Stream, n: nat): Stream
    decreases n
  {
    if n == 0 then s else SkipZ(NextZ(s), n - 1)
  }

  /** The bytes that hold a stream, the last one filled up with zero bits. */
  function Pack(s: Stream): (r: seq<Byte>)
    decreases Length(s)
  {
    if s == End then
      []
    else
      SkipZShrinks(s, 8);
      [FirstByte(s)] + Pack(SkipZ(s, 8))
  }

  function FirstByte(s: Stream): Byte {
    GetBitsZBound(s, 8);
    Pow2Values();
    GetBitsZ(s, 8, 0).0
  }

  /** How many bits are missing to a whole byte. */
  function PadLength(n: nat): (r: nat)
    ensures r < 8 && (n + r) % 8 == 0
  {
    (8 - n % 8) % 8
  }

  function Append(s: Stream, zeros: nat): Stream {
    match s
    case End => Zeros(zeros)
    case Bit(b, t) => Bit(b, Append(t, zeros))
  }

  /** The first `n` bits of `s`, zeros standing in for missing ones, in front of `rest`. */
  function Prefix(s: Stream, n: nat, rest: Stream): Stream
    decreases n
  {
    if n == 0 then rest else Bit(HeadZ(s), Prefix(NextZ(s), n - 1, rest))
  }

  lemma {:induction false} SkipZShrinks(s: Stream, n: nat)
    ensures Length(SkipZ(s, n)) == Max(0, Length(s) - n)
    decreases n
  {
    if n > 0 {
      SkipZShrinks(NextZ(s), n - 1);
    }
  }

  lemma {:induction false} GetBitsZBelow(s: Stream, n: nat, acc: nat)
    ensures GetBitsZ(s, n, acc).0 < Shl(acc + 1, n)
    decreases n
  {
    if n > 0 {
      var acc' := 2 * acc + BitValue(HeadZ(s));
      GetBitsZBelow(NextZ(s), n - 1, acc');
      ShlAdd(acc' + 1, 2 * (acc + 1) - (acc' + 1), n - 1);
      ShlDouble(acc + 1, n - 1);
    }
  }

  lemma GetBitsZBound(s: Stream, n: nat)
    ensures GetBitsZ(s, n, 0).0 < Pow2(n)
  {
    GetBitsZBelow(s, n, 0);
    ShlIs(1, n);
  }

  lemma {:induction false} ShrHalves(v: nat, n: nat)
    ensures Shr(v, n + 1) == Shr(v, n) / 2
    decreases n
  {
    if n > 0 {
      ShrHalves(v / 2, n - 1);
    }
  }

  lemma {:induction false} ShrDropsBits(s: Stream, n: nat, acc: nat)
    ensures Shr(GetBitsZ(s, n, acc).0, n) == acc
    decreases n
  {
    if n > 0 {
      var acc' := 2 * acc + BitValue(HeadZ(s));
      ShrDropsBits(NextZ(s), n - 1, acc');
      ShrHalves(GetBitsZ(s, n, acc).0, n - 1);
    }
  }

  lemma {:induction false} BitOfNumber(s: Stream, n: nat, acc: nat, k: nat)
    requires k < n
    ensures Shr(GetBitsZ(s, n, acc).0, n - 1 - k) % 2 == 1 <==> HeadZ(SkipZ(s, k))
    decreases n
  {
    var acc' := 2 * acc + BitValue(HeadZ(s));
    if k == 0 {
      ShrDropsBits(NextZ(s), n - 1, acc');
    } else {
      BitOfNumber(NextZ(s), n - 1, acc', k - 1);
    }
  }

  lemma {:induction false} StreamOfConcat(a: seq<Byte>, b: seq<Byte>, pos: nat)
    requires pos <= 8 * |b|
    ensures StreamOf(a + b, 8 * |a| + pos) == StreamOf(b, pos)
    decreases 8 * |b| - pos
  {
    if pos < 8 * |b| {
      StreamOfConcat(a, b, pos + 1);
      assert (8 * |a| + pos) / 8 == |a| + pos / 8 && (8 * |a| + pos) % 8 == pos % 8;
    }
  }

  lemma {:induction false} SkipZStep(s: Stream, k: nat)
    ensures SkipZ(s, k + 1) == NextZ(SkipZ(s, k))
    decreases k
  {
    if k > 0 {
      SkipZStep(NextZ(s), k - 1);
    }
  }

  lemma StreamStep(data: seq<Byte>, i: nat, k: nat)
    requires i < |data| && k < 8
    ensures StreamOf(data, 8 * i + k) == Bit(ByteBit(data[i], k), StreamOf(data, 8 * i + k + 1))
  {
    assert (8 * i + k) / 8 == i && (8 * i + k) % 8 == k;
  }

  lemma {:induction false} FirstByteBits(s: Stream, more: seq<Byte>, k: nat)
    requires k <= 8
    ensures var data := [FirstByte(s)] + more;
            StreamOf(data, k) == Prefix(SkipZ(s, k), 8 - k, StreamOf(more, 0))
    decreases 8 - k
  {
    if k == 8 {
      StreamOfConcat([FirstByte(s)], more, 0);
    } else {
      hide StreamOf, SkipZ, Shr, GetBitsZ;
      FirstByteBits(s, more, k + 1);
      SkipZStep(s, k);
      BitOfNumber(s, 8, 0, k);
      StreamStep([FirstByte(s)] + more, 0, k);
    }
  }

  lemma {:induction false} PrefixAppend(s: Stream, n: nat, zeros: nat)
    requires n <= Length(s) || zeros == 0
    ensures Prefix(s, n, Append(SkipZ(s, n), zeros)) == Append(s, zeros + Max(0, n - Length(s)))
    decreases n
  {
    if n > 0 {
      PrefixAppend(NextZ(s), n - 1, zeros);
    }
  }

  lemma PadOfRest(n: nat)
    ensures PadLength(Max(0, n - 8)) + Max(0, 8 - n) == if n == 0 then 8 else PadLength(n)
    ensures n < 8 ==> PadLength(Max(0, n - 8)) == 0
  {
  }

  /** Bytes hold exactly the bits packed into them, plus the padding of the last byte. */
  lemma {:induction false} StreamOfPack(s: Stream)
    ensures StreamOf(Pack(s), 0) == Append(s, PadLength(Length(s)))
    decreases Length(s)
  {
    hide FirstByte, StreamOf, Prefix, PadLength, SkipZ;
    if s != End {
      var t := SkipZ(s, 8);
      SkipZShrinks(s, 8);
      StreamOfPack(t);
      FirstByteBits(s, Pack(t), 0);
      NoSkip(s);
      PrefixAppend(s, 8, PadLength(Length(t)));
      PadOfRest(Length(s));
      assert Pack(s) == [FirstByte(s)] + Pack(t);
    } else {
      EmptyPack();
    }
  }

  lemma NoSkip(s: Stream)
    ensures SkipZ(s, 0) == s
  {
  }

  lemma EmptyPack()
    ensures StreamOf(Pack(End), 0) == Append(End, PadLength(0))
  {
  }

  lemma {:induction false} AppendRepeat(b: bool, n: nat, rest: Stream, zeros: nat)
    ensures Append(Repeat(b, n, rest), zeros) == Repeat(b, n, Append(rest, zeros))
  {
    if n > 0 {
      AppendRepeat(b, n - 1, rest, zeros);
    }
  }

  lemma {:induction false} AppendPutBits(v: nat, n: nat, rest: Stream, zeros: nat)
    ensures Append(PutBits(v, n, rest), zeros) == PutBits(v, n, Append(rest, zeros))
    decreases n
  {
    if n > 0 {
      AppendPutBits(v / 2, n - 1, Bit(v % 2 == 1, rest), zeros);
    }
  }

  lemma {:induction false} AppendZeros(n: nat, zeros: nat)
    ensures Append(Zeros(n), zeros) == Zeros(n + zeros)
  {
    if n > 0 {
      AppendZeros(n - 1, zeros);
    }
  }

  /** The first bit written is the most significant one. */
  lemma {:induction false} PutBitsHead(v: nat, n: nat, rest: Stream)
    requires n >= 1
    ensures PutBits(v, n, rest) == Bit(Shr(v, n - 1) % 2 == 1, PutBits(v, n - 1, rest))
    decreases n
  {
    if n > 1 {
      PutBitsHead(v / 2, n - 1, Bit(v % 2 == 1, rest));
    }
  }

  lemma {:induction false} ShrSmall(v: nat, n: nat)
    requires v < Pow2(n)
    ensures Shr(v, n) == 0
    decreases n
  {
    if n > 0 {
      ShrSmall(v / 2, n - 1);
    }
  }

  lemma GetPutZ(v: nat, n: nat, rest: Stream)
    requires v < Pow2(n)
    ensures GetBitsZ(PutBits(v, n, rest), n, 0) == (v, rest)
  {
    GetPut(v, n, rest);
    LowIsAll(v, n);
    GetBitsLength(PutBits(v, n, rest), n, 0);
  }

  lemma {:induction false} GetBitsZRest(s: Stream, n: nat, acc: nat)
    ensures GetBitsZ(s, n, acc).1 == SkipZ(s, n)
    decreases n
  {
    if n > 0 {
      GetBitsZRest(NextZ(s), n - 1, 2 * acc + BitValue(HeadZ(s)));
    }
  }

  /** Reading in two steps is reading at once. */
  lemma {:induction false} GetBitsZSplit(s: Stream, a: nat, b: nat, acc: nat)
    ensures GetBitsZ(s, a + b, acc) == GetBitsZ(SkipZ(s, a), b, GetBitsZ(s, a, acc).0)
    decreases a
  {
    if a > 0 {
      GetBitsZSplit(NextZ(s), a - 1, b, 2 * acc + BitValue(HeadZ(s)));
    }
  }

  lemma {:induction false} GetBitsZAcc(s: Stream, n: nat, acc: nat)
    ensures GetBitsZ(s, n, acc).0 == Shl(acc, n) + GetBitsZ(s, n, 0).0
    decreases n
  {
    if n > 0 {
      var b := BitValue(HeadZ(s));
      GetBitsZAcc(NextZ(s), n - 1, 2 * acc + b);
      GetBitsZAcc(NextZ(s), n - 1, b);
      ShlAdd(2 * acc, b, n - 1);
      ShlDouble(acc, n - 1);
    }
  }

  /** The bits below the first `a` of a number read in one go. */
  lemma LowOfRead(s: Stream, a: nat, b: nat)
    ensures var v := GetBitsZ(s, a + b, 0).0;
            Shr(v, b) == GetBitsZ(s, a, 0).0 && v - Shl(Shr(v, b), b) == GetBitsZ(SkipZ(s, a), b, 0).0
  {
    GetBitsZSplit(s, a, b, 0);
    var r := GetBitsZ(s, a, 0).0;
    ShrDropsBits(SkipZ(s, a), b, r);
    GetBitsZAcc(SkipZ(s, a), b, r);
  }

  lemma ByteStep(b: Byte, k: nat)
    requires k < 8
    ensures Shr(b, 7 - k) == 2 * Shr(b, 8 - k) + BitValue(ByteBit(b, k))
  {
    ShrHalves(b, 7 - k);
  }

  lemma ReadStep(b: bool, s: Stream, n: nat, v: nat)
    ensures GetBitsZ(Bit(b, s), n + 1, v) == GetBitsZ(s, n, 2 * v + BitValue(b))
  {
  }

  /** Reading the bits `k..8` of a byte completes `v`, which holds `acc` and the bits before. */
  lemma {:induction false} GetByteFrom(data: seq<Byte>, i: nat, acc: nat, k: nat, v: nat)
    requires i < |data| && k <= 8 && v == Shl(acc, k) + Shr(data[i], 8 - k)
    ensures GetBitsZ(StreamOf(data, 8 * i + k), 8 - k, v) == (Shl(acc, 8) + data[i], StreamOf(data, 8 * i + 8))
    decreases 8 - k
  {
    if k < 8 {
      hide StreamOf, ByteBit, GetBitsZ, Shr, Shl;
      ByteStep(data[i], k);
      StreamStep(data, i, k);
      var b := ByteBit(data[i], k);
      ShlDouble(acc, k);
      ShlAdd(acc, acc, k);
      GetByteFrom(data, i, acc, k + 1, 2 * v + BitValue(b));
      ReadStep(b, StreamOf(data, 8 * i + k + 1), 7 - k, v);
    }
  }

  /** Reading a whole byte appends its value. */
  lemma GetByte(data: seq<Byte>, i: nat, acc: nat)
    requires i < |data|
    ensures GetBitsZ(StreamOf(data, 8 * i), 8, acc) == (Shl(acc, 8) + data[i], StreamOf(data, 8 * i + 8))
  {
    hide StreamOf, GetBitsZ;
    Pow2Values();
    ShrSmall(data[i], 8);
    GetByteFrom(data, i, acc, 0, acc);
  }
}
