/**
 Simplified run-length coding, the code of the coefficients an upgrade pass may make
 significant: the client's reader, the sender, and the proof that the one inverts the other.
 */
module Srl {
  import opened Machine
  import opened Bits
  import opened AdaptiveRun

  /**
   The reader's state: the bits left, the zeros still owed, the adaptive parameter, and
   whether a value (rather than a run header) comes next.
   */
  datatype State = State(s: Stream, nz: nat, kp: Kp, valueNext: bool)

  function Initial(s: Stream): State {
    State(s, 0, 8, false)
  }

  /** A unary magnitude that starts at one and is capped at `max`. */
  function Magnitude(s: Stream, mag: nat, max: nat): (nat, Stream)
    decreases max - mag
  {
    if mag >= max then (mag, s)
    else if HeadZ(s) then (mag, NextZ(s))
    else Magnitude(NextZ(s), mag + 1, max)
  }

  /** A sign, then a magnitude of at most `numBits` bits. */
  function ReadValue(s: Stream, kp: Kp, numBits: nat): (I16, State) {
    var (mag, rest) := Magnitude(NextZ(s), 1, Pow2(numBits) - 1);
    (Wrap16(if HeadZ(s) then 0 - mag else mag), State(rest, 0, Shrink(kp, 6), false))
  }

  /** One coefficient. */
  function Read(st: State, numBits: nat): (I16, State) {
    if st.nz > 0 then
      (0, st.(nz := st.nz - 1))
    else if st.valueNext then
      ReadValue(st.s, st.kp, numBits)
    else if !HeadZ(st.s) then
      (0, State(NextZ(st.s), Pow2(st.kp / 8) - 1, Grow(st.kp, 4), false))
    else
      var (zeros, rest) := GetBitsZ(NextZ(st.s), st.kp / 8, 0);
      if zeros > 0 then (0, State(rest, zeros - 1, st.kp, true)) else ReadValue(rest, st.kp, numBits)
  }

  /** Successive coefficients, each with its own number of bits. */
  function ReadAll(st: State, widths: seq<nat>): (r: seq<I16>)
    ensures |r| == |widths|
    decreases |widths|
  {
    if widths == [] then [] else
      var (v, st') := Read(st, widths[0]);
      [v] + ReadAll(st', widths[1..])
  }

  // ---------- The sender ----------

  /** A coefficient to be sent, and the bits of precision its pass adds. */
  datatype Item = Item(value: int, numBits: nat)

  predicate Sendable(item: Item) {
    1 <= item.numBits <= 15 && Abs(item.value) < Pow2(item.numBits)
  }

  function LeadingZeros(items: seq<Item>): (n: nat)
    ensures n <= |items|
    ensures n < |items| ==> items[n].value != 0
  {
    if items == [] || items[0].value != 0 then 0 else 1 + LeadingZeros(items[1..])
  }

  function EncodeMagnitude(mag: nat, max: nat, rest: Stream): Stream
    requires 1 <= mag
  {
    Repeat(false, mag - 1, if mag >= max then rest else Bit(true, rest))
  }

  function EncodeValue(item: Item, rest: Stream): Stream
    requires item.value != 0
  {
    Bit(item.value < 0, EncodeMagnitude(Abs(item.value), Pow2(item.numBits) - 1, rest))
  }

  /**
   The sender's stream; trailing zeros are not coded, and `pad` zero bits end it. Those may be
   byte padding as well as run headers of a sender that does code trailing zeros.
   */
  function Encode(items: seq<Item>, kp: Kp, pad: nat): Stream
    decreases |items|
  {
    var z, full := LeadingZeros(items), Pow2(kp / 8);
    if z == |items| then
      Zeros(pad)
    else if z >= full then
      Bit(false, Encode(items[full..], Grow(kp, 4), pad))
    else
      Bit(true, PutBits(z, kp / 8, EncodeValue(items[z], Encode(items[z + 1..], Shrink(kp, 6), pad))))
  }

  // ---------- The reader inverts the sender ----------

  function Drop(items: seq<Item>, n: nat): seq<Item> {
    if n <= |items| then items[n..] else []
  }

  /** The reader stands where the sender's code of exactly `items` begins. */
  ghost predicate Ready(st: State, items: seq<Item>, pad: nat) {
    if st.valueNext then
      && st.nz < |items| && LeadingZeros(items) == st.nz
      && st.s == EncodeValue(items[st.nz], Encode(items[st.nz + 1..], Shrink(st.kp, 6), pad))
    else
      && (st.nz <= LeadingZeros(items) || LeadingZeros(items) == |items|)
      && st.s == Encode(Drop(items, st.nz), st.kp, pad)
  }

  lemma {:induction false} MagnitudeRoundTrip(k: nat, mag: nat, max: nat, rest: Stream)
    requires 1 <= k <= mag <= max
    ensures Magnitude(Repeat(false, mag - k, if mag >= max then rest else Bit(true, rest)), k, max) == (mag, rest)
    decreases mag - k
  {
    if k < mag {
      MagnitudeRoundTrip(k + 1, mag, max, rest);
    }
  }

  lemma ValueRoundTrip(item: Item, kp: Kp, rest: Stream)
    requires Sendable(item) && item.value != 0
    ensures ReadValue(EncodeValue(item, rest), kp, item.numBits)
         == (item.value, State(rest, 0, Shrink(kp, 6), false))
  {
    MagnitudeRoundTrip(1, Abs(item.value), Pow2(item.numBits) - 1, rest);
    Pow2Mono(item.numBits, 15);
    Pow2Values();
  }

  lemma {:induction false} LeadingZerosDrop(items: seq<Item>, n: nat)
    requires n <= LeadingZeros(items)
    ensures LeadingZeros(items[n..]) == LeadingZeros(items) - n
    decreases n
  {
    if n == 0 {
      assert items[0..] == items;
    } else {
      LeadingZerosDrop(items[1..], n - 1);
      assert items[1..][n - 1..] == items[n..];
    }
  }

  lemma {:induction false} NextOfZeros(pad: nat)
    ensures !HeadZ(Zeros(pad)) && NextZ(Zeros(pad)) == Zeros(Max(0, pad - 1))
  {
  }

  /** A zero the reader still owes. */
  lemma OwedZero(st: State, items: seq<Item>, pad: nat)
    requires Ready(st, items, pad) && items != [] && st.nz > 0
    ensures items[0].value == 0 && Ready(st.(nz := st.nz - 1), items[1..], pad)
  {
    hide Encode, EncodeValue;
    if st.valueNext {
      assert items[1..][st.nz - 1] == items[st.nz] && items[1..][st.nz..] == items[st.nz + 1..];
    } else {
      assert Drop(items, st.nz) == Drop(items[1..], st.nz - 1);
    }
  }

  /** The header of a full run, or the padding behind the last value. */
  lemma FullRunHeader(st: State, items: seq<Item>, pad: nat) returns (pad': nat)
    requires Ready(st, items, pad) && items != [] && st.nz == 0 && !st.valueNext
    requires LeadingZeros(items) >= Pow2(st.kp / 8) || LeadingZeros(items) == |items|
    ensures items[0].value == 0 && !HeadZ(st.s)
    ensures Ready(State(NextZ(st.s), Pow2(st.kp / 8) - 1, Grow(st.kp, 4), false), items[1..], pad')
  {
    hide *;
    var full: nat := Pow2(st.kp / 8);
    ReadyAtHeader(st, items, pad);
    FirstIsZero(items, full);
    pad' := if LeadingZeros(items) == |items| then (if pad == 0 then 0 else pad - 1) else pad;
    EncodeFullRun(items, st.kp, pad);
    ReadyInRun(NextZ(st.s), items, full, Grow(st.kp, 4), pad');
  }

  lemma ReadyAtHeader(st: State, items: seq<Item>, pad: nat)
    requires Ready(st, items, pad) && st.nz == 0 && !st.valueNext
    ensures st.s == Encode(items, st.kp, pad)
  {
    hide Encode, EncodeValue;
    assert Drop(items, 0) == items;
  }

  lemma FirstIsZero(items: seq<Item>, full: nat)
    requires items != [] && full >= 1 && (LeadingZeros(items) >= full || LeadingZeros(items) == |items|)
    ensures items[0].value == 0
    ensures full - 1 <= LeadingZeros(items[1..]) || LeadingZeros(items[1..]) == |items[1..]|
  {
  }

  /** The code of a full run, or of the padding. */
  lemma EncodeFullRun(items: seq<Item>, kp: Kp, pad: nat)
    requires items != [] && (LeadingZeros(items) >= Pow2(kp / 8) || LeadingZeros(items) == |items|)
    ensures var s, pad' := Encode(items, kp, pad), if LeadingZeros(items) == |items| then (if pad == 0 then 0 else pad - 1) else pad;
            !HeadZ(s) && NextZ(s) == Encode(Drop(items, Pow2(kp / 8)), Grow(kp, 4), pad')
  {
    hide EncodeValue, Pow2;
    if LeadingZeros(items) == |items| {
      NextOfZeros(pad);
      if Pow2(kp / 8) <= |items| {
        LeadingZerosDrop(items, Pow2(kp / 8));
      }
    }
  }

  lemma ReadyInRun(s: Stream, items: seq<Item>, full: nat, kp: Kp, pad: nat)
    requires items != [] && full >= 1 && s == Encode(Drop(items, full), kp, pad)
    requires full - 1 <= LeadingZeros(items[1..]) || LeadingZeros(items[1..]) == |items[1..]|
    ensures Ready(State(s, full - 1, kp, false), items[1..], pad)
  {
    hide Encode, EncodeValue;
    assert Drop(items, full) == Drop(items[1..], full - 1);
  }

  /** The header of a run that ends with a value. */
  lemma LastRunHeader(st: State, items: seq<Item>, pad: nat)
    requires Ready(st, items, pad) && items != [] && st.nz == 0 && !st.valueNext
    requires LeadingZeros(items) < Pow2(st.kp / 8) && LeadingZeros(items) < |items|
    ensures HeadZ(st.s)
    ensures var z := LeadingZeros(items);
            GetBitsZ(NextZ(st.s), st.kp / 8, 0)
            == (z, EncodeValue(items[z], Encode(items[z + 1..], Shrink(st.kp, 6), pad)))
  {
    hide EncodeValue, Pow2;
    var z := LeadingZeros(items);
    var rest := EncodeValue(items[z], Encode(items[z + 1..], Shrink(st.kp, 6), pad));
    assert Drop(items, 0) == items;
    assert st.s == Bit(true, PutBits(z, st.kp / 8, rest));
    GetPut(z, st.kp / 8, rest);
    LowIsAll(z, st.kp / 8);
    GetBitsLength(PutBits(z, st.kp / 8, rest), st.kp / 8, 0);
  }

  /** One read returns the next coefficient and leaves the reader ready for the others. */
  lemma ReadStep(st: State, items: seq<Item>, pad: nat) returns (pad': nat)
    requires Ready(st, items, pad) && items != [] && Sendable(items[0])
    ensures var (v, st') := Read(st, items[0].numBits);
            v == items[0].value && Ready(st', items[1..], pad')
  {
    hide Encode, EncodeValue, ReadValue, Ready, LeadingZeros, Pow2;
    pad' := pad;
    if st.nz > 0 {
      OwedZero(st, items, pad);
    } else if st.valueNext {
      ValueNext(st, items, pad);
    } else if LeadingZeros(items) >= Pow2(st.kp / 8) || LeadingZeros(items) == |items| {
      pad' := FullRunHeader(st, items, pad);
    } else {
      LastRunHeader(st, items, pad);
      AfterLastRun(st, items, pad);
    }
  }

  lemma ValueNext(st: State, items: seq<Item>, pad: nat)
    requires Ready(st, items, pad) && items != [] && Sendable(items[0]) && st.nz == 0 && st.valueNext
    ensures var (v, st') := ReadValue(st.s, st.kp, items[0].numBits);
            v == items[0].value && Ready(st', items[1..], pad)
  {
    hide Encode, EncodeValue, ReadValue;
    ValueRoundTrip(items[0], st.kp, Encode(items[1..], Shrink(st.kp, 6), pad));
    assert Drop(items[1..], 0) == items[1..];
  }

  lemma AfterLastRun(st: State, items: seq<Item>, pad: nat)
    requires items != [] && Sendable(items[0]) && LeadingZeros(items) < |items|
    ensures var z := LeadingZeros(items);
            var s := EncodeValue(items[z], Encode(items[z + 1..], Shrink(st.kp, 6), pad));
            if z > 0 then
              items[0].value == 0 && Ready(State(s, z - 1, st.kp, true), items[1..], pad)
            else
              var (v, st') := ReadValue(s, st.kp, items[0].numBits);
              v == items[0].value && Ready(st', items[1..], pad)
  {
    hide Encode, EncodeValue, ReadValue;
    var z := LeadingZeros(items);
    if z > 0 {
      assert items[1..][z - 1] == items[z] && items[1..][z..] == items[z + 1..];
    } else {
      ValueRoundTrip(items[0], st.kp, Encode(items[1..], Shrink(st.kp, 6), pad));
      assert Drop(items[1..], 0) == items[1..];
    }
  }

  function Widths(items: seq<Item>): (r: seq<nat>)
    ensures |r| == |items|
  {
    seq(|items|, i requires 0 <= i < |items| => items[i].numBits)
  }

  lemma {:induction false} ReadAllRoundTrip(st: State, items: seq<Item>, pad: nat)
    requires Ready(st, items, pad)
    requires forall i :: 0 <= i < |items| ==> Sendable(items[i])
    ensures var r := ReadAll(st, Widths(items)); forall i :: 0 <= i < |items| ==> r[i] == items[i].value
    decreases |items|
  {
    hide Read, Ready, Sendable;
    if items != [] {
      var pad' := ReadStep(st, items, pad);
      var st' := Read(st, items[0].numBits).1;
      assert Widths(items)[1..] == Widths(items[1..]);
      ReadAllRoundTrip(st', items[1..], pad');
    }
  }

  /** Whatever is sent is read back, however the stream is padded and across subbands. */
  lemma RoundTrip(items: seq<Item>, pad: nat)
    requires forall i :: 0 <= i < |items| ==> Sendable(items[i])
    ensures var r := ReadAll(Initial(Encode(items, 8, pad)), Widths(items));
            forall i :: 0 <= i < |items| ==> r[i] == items[i].value
  {
    hide Encode;
    assert Drop(items, 0) == items;
    ReadAllRoundTrip(Initial(Encode(items, 8, pad)), items, pad);
  }
}
