/** `UpgradeState` and `upgrade_component`: refinement in place, proved against Refinement. */
module UpgradeDecoder {
  import opened Machine
  import opened Bits
  import opened BitReading
  import opened AdaptiveRun
  import opened Refinement
  import opened BandLayout
  import Srl

  lemma ValueIs(s: Stream, kp: Kp, numBits: nat)
    ensures numBits == 1 ==>
              Srl.ReadValue(s, kp, numBits) == (if HeadZ(s) then -1 else 1, Srl.State(NextZ(s), 0, Shrink(kp, 6), false))
    ensures var m := Srl.Magnitude(NextZ(s), 1, Pow2(numBits) - 1);
            Srl.ReadValue(s, kp, numBits) == (Wrap16(if HeadZ(s) then 0 - m.0 else m.0), Srl.State(m.1, 0, Shrink(kp, 6), false))
  {
    if numBits == 1 {
      Pow2Values();
      assert Wrap16(-1) == -1 && Wrap16(1) == 1;
    }
  }

  class UpgradeState {
    const srl: BitReader
    const raw: BitReader
    var nz: nat
    var kp: Kp
    var valueNext: bool

    ghost predicate Valid()
      reads this, srl, raw
    {
      srl != raw && srl.Valid() && raw.Valid()
    }

    ghost function SrlState(): Srl.State
      reads this, srl
      requires srl.Valid()
    {
      Srl.State(srl.Rest(), nz, kp, valueNext)
    }

    ghost function State(): Streams
      reads this, srl, raw
      requires Valid()
    {
      Streams(SrlState(), raw.Rest())
    }

    constructor (srlData: seq<Byte>, rawData: seq<Byte>)
      ensures Valid() && fresh(srl) && fresh(raw)
      ensures State() == Begin(StreamOf(srlData, 0), StreamOf(rawData, 0))
    {
      srl := new BitReader(srlData);
      raw := new BitReader(rawData);
      nz, kp, valueNext := 0, 8, false;
    }

    /** The value behind a run: a sign, then a capped unary magnitude. */
    method ReadValue(numBits: nat) returns (v: I16)
      requires Valid() && nz == 0
      modifies this, srl`bitPos
      ensures Valid() && raw.Rest() == old(raw.Rest())
      ensures (v, SrlState()) == Srl.ReadValue(old(srl.Rest()), old(kp), numBits)
    {
      kp := Shrink(kp, 6);
      valueNext := false;
      var sign := srl.ReadBit();
      var negative := sign.Some? && sign.value;
      assert negative == HeadZ(old(srl.Rest())) && srl.Rest() == NextZ(old(srl.Rest()));
      ValueIs(old(srl.Rest()), old(kp), numBits);
      hide *;
      if numBits == 1 {
        return if negative then -1 else 1;
      }
      var mag: int := ReadMagnitude(Pow2(numBits) - 1);
      return Wrap16(if negative then 0 - mag else mag);
    }

    /** Counts zero bits up to a one, but never past `max`. */
    method ReadMagnitude(max: nat) returns (mag: nat)
      requires Valid()
      modifies srl`bitPos
      ensures Valid() && raw.Rest() == old(raw.Rest())
      ensures (mag, srl.Rest()) == Srl.Magnitude(old(srl.Rest()), 1, max)
    {
      mag := 1;
      while mag < max
        invariant Valid() && raw.Rest() == old(raw.Rest())
        invariant Srl.Magnitude(old(srl.Rest()), 1, max) == Srl.Magnitude(srl.Rest(), mag, max)
      {
        ghost var s := srl.Rest();
        var b := srl.ReadBit();
        if b.Some? && b.value {
          return;
        }
        mag := mag + 1;
      }
    }

    /** One coefficient from the SRL stream. */
    method SrlRead(numBits: nat) returns (v: I16)
      requires Valid()
      modifies this, srl`bitPos
      ensures Valid() && raw.Rest() == old(raw.Rest())
      ensures (v, SrlState()) == Srl.Read(old(SrlState()), numBits)
    {
      hide Srl.ReadValue, GetBitsZ, StreamOf, Pow2;
      if nz > 0 {
        nz := nz - 1;
        return 0;
      }
      var k := kp / 8;
      if !valueNext {
        var header := srl.ReadBit();
        if header.None? || !header.value {
          nz := Pow2(k);
          kp := Grow(kp, 4);
          nz := nz - 1;
          return 0;
        }
        valueNext := true;
        nz := srl.ReadBits(k);
        if nz > 0 {
          nz := nz - 1;
          return 0;
        }
      }
      v := ReadValue(numBits);
    }

    /** The refinement of one coefficient, and its new sign. */
    method ReadInput(sl: Slot) returns (input: int, sign: I16)
      requires Valid() && sl.numBits > 0
      modifies this, srl`bitPos, raw`bitPos
      ensures Valid() && (input, State()) == Input(sl, old(State()))
      ensures sign == Refined(sl, input).sign
    {
      hide Srl.Read, GetBitsZ, StreamOf, Shl;
      sign := sl.coef.sign;
      if !sl.nonLl || sl.coef.sign > 0 {
        input := raw.ReadBits(sl.numBits);
      } else if sl.coef.sign < 0 {
        var bits: int := raw.ReadBits(sl.numBits);
        input := 0 - bits;
      } else {
        var v := SrlRead(sl.numBits);
        input, sign := v, v;
      }
    }

    /** Refines the coefficients `off..off + len` in place; slots and streams are those of the component. */
    method UpgradeBlock(current: array<I16>, sign: array<I16>, off: nat, len: nat, shift: nat, numBits: nat, nonLl: bool,
                        ghost slots: seq<Slot>, ghost st: Streams)
      requires Valid() && current != sign && off + len <= current.Length == sign.Length == |slots|
      requires forall i :: off <= i < off + len ==> slots[i] == Slot(Coef(current[i], sign[i]), shift, numBits, nonLl)
      requires State() == StreamsAt(slots, st, off)
      modifies this, srl`bitPos, raw`bitPos, current, sign
      ensures Valid() && State() == StreamsAt(slots, st, off + len)
      ensures forall i :: off <= i < off + len ==> Coef(current[i], sign[i]) == Refined(slots[i], InputAt(slots, st, i))
      ensures forall i :: 0 <= i < off || off + len <= i < current.Length ==>
                current[i] == old(current[i]) && sign[i] == old(sign[i])
    {
      if numBits == 0 {
        IdleBlock(slots, st, off, len);
        return;
      }
      hide Input, Wrap16, Shl;
      for i := off to off + len
        invariant Valid() && State() == StreamsAt(slots, st, i)
        invariant forall j :: off <= j < i ==> Coef(current[j], sign[j]) == Refined(slots[j], InputAt(slots, st, j))
        invariant forall j :: 0 <= j < off || i <= j < current.Length ==>
                    current[j] == old(current[j]) && sign[j] == old(sign[j])
      {
        var input, newSign := ReadInput(Slot(Coef(current[i], sign[i]), shift, numBits, nonLl));
        sign[i] := newSign;
        current[i] := Wrap16(current[i] + Wrap16(Shl(input, shift)));
      }
    }
  }

  /** A subband without new bits consumes nothing and changes nothing. */
  lemma {:induction false} IdleBlock(slots: seq<Slot>, st: Streams, off: nat, len: nat)
    requires off + len <= |slots| && forall i :: off <= i < off + len ==> slots[i].numBits == 0
    ensures StreamsAt(slots, st, off + len) == StreamsAt(slots, st, off)
    ensures forall i :: off <= i < off + len ==> Refined(slots[i], InputAt(slots, st, i)) == slots[i].coef
    decreases len
  {
    if len > 0 {
      IdleBlock(slots, st, off, len - 1);
      var i := off + len - 1;
      ShlOfZero(slots[i].shift);
      assert InputAt(slots, st, i) == 0;
    }
  }

  lemma {:induction false} ShlOfZero(n: nat)
    ensures Shl(0, n) == 0
  {
  }

  /** One refinement pass over a component: all ten subbands, sharing the two streams. */
  method UpgradeComponent(current: array<I16>, sign: array<I16>, srl: seq<Byte>, raw: seq<Byte>,
                          shifts: seq<int>, numBits: seq<int>, extrapolate: bool)
    requires current != sign && current.Length == sign.Length == COEFFICIENTS
    requires |shifts| == |numBits| == 10
    modifies current, sign
    ensures Coefs(current[..], sign[..]) ==
            Upgrade(ComponentSlots(old(Coefs(current[..], sign[..])), shifts, numBits, extrapolate),
                    Begin(StreamOf(srl, 0), StreamOf(raw, 0)))
  {
    hide Input, Refined, BandStart, BandOf, SubbandLayout, StreamOf;
    var state := new UpgradeState(srl, raw);
    ghost var st := state.State();
    ghost var before := Coefs(current[..], sign[..]);
    ghost var slots := ComponentSlots(before, shifts, numBits, extrapolate);
    var layout := SubbandLayout(extrapolate);
    LayoutTiles(extrapolate, 0);
    for band := 0 to 10
      invariant fresh(state) && fresh(state.srl) && fresh(state.raw) && state.Valid()
      invariant state.State() == StreamsAt(slots, st, BandStart(extrapolate, band))
      invariant forall i :: 0 <= i < BandStart(extrapolate, band) ==>
                  Coef(current[i], sign[i]) == Refined(slots[i], InputAt(slots, st, i))
      invariant forall i :: BandStart(extrapolate, band) <= i < COEFFICIENTS ==> Coef(current[i], sign[i]) == before[i]
    {
      LayoutTiles(extrapolate, band);
      var (off, len) := layout[band];
      forall i | off <= i < off + len
        ensures slots[i] == Slot(Coef(current[i], sign[i]), Max(shifts[band], 0), Max(numBits[band], 0), band < 9)
      {
        BandOfIs(extrapolate, band, i);
      }
      state.UpgradeBlock(current, sign, off, len, Max(shifts[band], 0), Max(numBits[band], 0), band < 9, slots, st);
    }
  }
}
