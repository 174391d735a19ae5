/** Fixed-width integers, as the client's arithmetic wraps, saturates or truncates them. */
module Machine {
  type Byte = x: int | 0 <= x < 0x100
  type U16 = x: int | 0 <= x < 0x1_0000
  type U32 = x: int | 0 <= x < 0x1_0000_0000
  type I16 = x: int | -0x8000 <= x < 0x8000

  datatype Option<+T> = None | Some(value: T)

  /** Every error of the client is one failure value: its text is not modelled. */
  datatype Result<+T> = Ok(value: T) | Err

  function Pow2(n: nat): (p: nat)
    ensures p >= 1
  {
    if n == 0 then 1 else 2 * Pow2(n - 1)
  }

  /** Shift left, without a bound on the width. */
  function Shl(v: int, n: nat): (r: int)
    ensures v >= 0 ==> r >= v
    ensures v <= 0 ==> r <= v
  {
    if n == 0 then v else 2 * Shl(v, n - 1)
  }

  /** Arithmetic shift right. */
  function Shr(v: int, n: nat): (r: int)
    ensures v >= 0 ==> 0 <= r <= v
    decreases n
  {
    if n == 0 then v else Shr(v / 2, n - 1)
  }

  function Sgn(x: int): int {
    if x < 0 then -1 else if x > 0 then 1 else 0
  }

  function Abs(x: int): nat {
    if x < 0 then -x else x
  }

  function Min(a: int, b: int): int {
    if a < b then a else b
  }

  function Max(a: int, b: int): int {
    if a < b then b else a
  }

  /** `x as i16`: keeps the low sixteen bits and reads them as a signed number. */
  function Wrap16(x: int): I16 {
    (x + 0x8000) % 0x1_0000 - 0x8000
  }

  /** `clampi16`: saturates instead of wrapping. */
  function Clamp16(x: int): I16 {
    if x < -0x8000 then -0x8000 else if x > 0x7FFF then 0x7FFF else x
  }

  /** Rust's signed `/ 2`, which truncates towards zero. */
  function HalfTowardsZero(x: int): int {
    if x >= 0 then x / 2 else -((-x) / 2)
  }

  function Le16(b0: Byte, b1: Byte): U16 {
    b0 + 0x100 * b1
  }

  function Le32(b0: Byte, b1: Byte, b2: Byte, b3: Byte): U32 {
    b0 + 0x100 * b1 + 0x1_0000 * b2 + 0x100_0000 * b3
  }

  /** The bytes of a number, least significant first: the only ones it is the value of. */
  function Le16Bytes(v: U16): (r: seq<Byte>)
    ensures |r| == 2 && Le16(r[0], r[1]) == v
  {
    OneSplit16(v);
    var b0: Byte, b1: Byte :| Le16(b0, b1) == v;
    [b0, b1]
  }

  function Le32Bytes(v: U32): (r: seq<Byte>)
    ensures |r| == 4 && Le32(r[0], r[1], r[2], r[3]) == v
  {
    OneSplit32(v);
    var b0: Byte, b1: Byte, b2: Byte, b3: Byte :| Le32(b0, b1, b2, b3) == v;
    [b0, b1, b2, b3]
  }

  lemma OneSplit16(v: U16)
    ensures exists b0: Byte, b1: Byte :: Le16(b0, b1) == v
    ensures forall a0: Byte, a1: Byte, b0: Byte, b1: Byte ::
              Le16(a0, a1) == v && Le16(b0, b1) == v ==> a0 == b0 && a1 == b1
  {
    assert Le16(v % 0x100, v / 0x100) == v;
  }

  lemma OneSplit32(v: U32)
    ensures exists b0: Byte, b1: Byte, b2: Byte, b3: Byte :: Le32(b0, b1, b2, b3) == v
    ensures forall a0: Byte, a1: Byte, a2: Byte, a3: Byte, b0: Byte, b1: Byte, b2: Byte, b3: Byte ::
              Le32(a0, a1, a2, a3) == v && Le32(b0, b1, b2, b3) == v ==> a0 == b0 && a1 == b1 && a2 == b2 && a3 == b3
  {
    var low, high := v % 0x1_0000, v / 0x1_0000;
    assert Le32(low % 0x100, low / 0x100, high % 0x100, high / 0x100) == v;
  }

  lemma {:induction false} Pow2Add(a: nat, b: nat)
    ensures Pow2(a + b) == Pow2(a) * Pow2(b)
  {
    if a == 0 {
    } else {
      Pow2Add(a - 1, b);
      calc {
        Pow2(a + b);
        2 * Pow2(a - 1 + b);
        2 * (Pow2(a - 1) * Pow2(b));
        (2 * Pow2(a - 1)) * Pow2(b);
      }
    }
  }

  lemma {:induction false} ShlIs(v: int, n: nat)
    ensures Shl(v, n) == v * Pow2(n)
  {
    if n > 0 {
      ShlIs(v, n - 1);
      var d := Pow2(n - 1);
      assert v * (2 * d) == 2 * (v * d);
    }
  }

  lemma Pow2Values()
    ensures Pow2(0) == 1 && Pow2(1) == 2 && Pow2(8) == 0x100
    ensures Pow2(10) == 0x400 && Pow2(15) == 0x8000 && Pow2(16) == 0x1_0000
  {
    assert Pow2(2) == 4 && Pow2(4) == 16 && Pow2(6) == 64 && Pow2(8) == 256;
    assert Pow2(10) == 1024 && Pow2(12) == 4096 && Pow2(14) == 16384;
  }

  lemma {:induction false} ShlAdd(a: int, b: int, n: nat)
    ensures Shl(a + b, n) == Shl(a, n) + Shl(b, n)
    ensures Shl(-a, n) == -Shl(a, n)
  {
    if n > 0 {
      ShlAdd(a, b, n - 1);
    }
  }

  lemma {:induction false} ShlDouble(a: int, n: nat)
    ensures Shl(2 * a, n) == Shl(a, n + 1)
  {
    if n > 0 {
      ShlDouble(a, n - 1);
    }
  }

  lemma {:induction false} ShlShl(a: int, m: nat, n: nat)
    ensures Shl(a, m + n) == Shl(Shl(a, m), n)
  {
    if n > 0 {
      ShlShl(a, m, n - 1);
    }
  }

  lemma {:induction false} ShrShr(a: int, m: nat, n: nat)
    ensures Shr(a, m + n) == Shr(Shr(a, m), n)
    decreases m
  {
    if m > 0 {
      ShrShr(a / 2, m - 1, n);
    }
  }

  lemma {:induction false} Pow2Mono(a: nat, b: nat)
    requires a <= b
    ensures Pow2(a) <= Pow2(b)
    decreases b
  {
    if a < b {
      Pow2Mono(a, b - 1);
    }
  }

  /** Two numbers that differ by a multiple of 2^16 truncate to the same i16. */
  lemma Wrap16Shift(x: int, n: int)
    ensures Wrap16(x + n * 0x1_0000) == Wrap16(x)
  {
    var y := x + 0x8000;
    assert (y + n * 0x1_0000) % 0x1_0000 == y % 0x1_0000;
  }

  /** Truncating the terms of a sum first does not change the truncated sum. */
  lemma Wrap16Add(x: int, y: int)
    ensures Wrap16(Wrap16(x) + Wrap16(y)) == Wrap16(x + y)
    ensures Wrap16(x + Wrap16(y)) == Wrap16(x + y)
  {
    var a := (x + 0x8000) / 0x1_0000;
    var b := (y + 0x8000) / 0x1_0000;
    assert Wrap16(x) == x - a * 0x1_0000;
    assert Wrap16(y) == y - b * 0x1_0000;
    Wrap16Shift(x + y, -a - b);
    Wrap16Shift(x + y, -b);
  }

  /** A number is divided with remainder in one way only. */
  lemma SmallRemainder(r: nat, q: nat, size: nat, n: nat)
    requires r < size && n == size * q + r
    ensures n % size == r && n / size == q
  {
    QuotientOrder(size, n / size, n % size, q, r);
    QuotientOrder(size, q, r, n / size, n % size);
  }

  lemma QuotientOrder(size: nat, a: nat, r: nat, b: nat, s: nat)
    requires r < size
    ensures a < b ==> size * a + r < size * b + s
  {
    if a < b {
      assert size * (a + 1) <= size * b;
    }
  }
}
