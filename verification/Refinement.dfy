/**
 Bit-plane refinement: what an upgrade pass (section 2.2.4.4.3 of MS-RDPEGFX) does to the
 coefficients of a component, and what any run of passes leaves in them.
 */
module Refinement {
  import opened Machine
  import opened Bits
  import Srl

  /** A coefficient and what is remembered of its sign: zero while it is insignificant. */
  datatype Coef = Coef(current: I16, sign: I16)

  function Coefs(current: seq<I16>, sign: seq<I16>): (r: seq<Coef>)
    requires |current| == |sign|
    ensures |r| == |current|
  {
    seq(|current|, i requires 0 <= i < |current| => Coef(current[i], sign[i]))
  }

  /** A coefficient about to be refined by `numBits` bits that land at `shift`. */
  datatype Slot = Slot(coef: Coef, shift: nat, numBits: nat, nonLl: bool)

  datatype Streams = Streams(srl: Srl.State, raw: Stream)

  function Begin(srl: Stream, raw: Stream): Streams {
    Streams(Srl.Initial(srl), raw)
  }

  function UsesRaw(sl: Slot): bool {
    !sl.nonLl || sl.coef.sign != 0
  }

  /** The signed refinement a slot reads, and the streams behind it. */
  function Input(sl: Slot, st: Streams): (int, Streams) {
    if sl.numBits == 0 then
      (0, st)
    else if UsesRaw(sl) then
      var (bits, raw) := GetBitsZ(st.raw, sl.numBits, 0);
      (if !sl.nonLl || sl.coef.sign > 0 then bits else 0 - bits, st.(raw := raw))
    else
      var (v, srl) := Srl.Read(st.srl, sl.numBits);
      (v, st.(srl := srl))
  }

  /** The coefficient once it has been refined by `input`. */
  function Refined(sl: Slot, input: int): Coef {
    Coef(
      Wrap16(sl.coef.current + Wrap16(Shl(input, sl.shift))),
      if sl.numBits == 0 || UsesRaw(sl) then sl.coef.sign else Wrap16(input)
    )
  }

  /** The streams once the first `i` slots have been served. */
  function StreamsAt(slots: seq<Slot>, st: Streams, i: nat): Streams
    requires i <= |slots|
  {
    if i == 0 then st else Input(slots[i - 1], StreamsAt(slots, st, i - 1)).1
  }

  function InputAt(slots: seq<Slot>, st: Streams, i: nat): int
    requires i < |slots|
  {
    Input(slots[i], StreamsAt(slots, st, i)).0
  }

  function Upgrade(slots: seq<Slot>, st: Streams): (r: seq<Coef>)
    ensures |r| == |slots|
  {
    seq(|slots|, i requires 0 <= i < |slots| => Refined(slots[i], InputAt(slots, st, i)))
  }

  // ---------- The sender ----------

  /** The refinements a sender may ask of a slot. */
  predicate Sendable(sl: Slot, delta: int) {
    && sl.numBits <= 15
    && Abs(delta) < Pow2(sl.numBits)
    && (UsesRaw(sl) ==> (if !sl.nonLl || sl.coef.sign > 0 then delta >= 0 else delta <= 0))
  }

  predicate AllSendable(slots: seq<Slot>, deltas: seq<int>) {
    |deltas| == |slots| && forall i :: 0 <= i < |slots| ==> Sendable(slots[i], deltas[i])
  }

  /** What goes into the SRL stream from slot `i` on. */
  function SrlItems(slots: seq<Slot>, deltas: seq<int>, i: nat): seq<Srl.Item>
    requires |deltas| == |slots| && i <= |slots|
    decreases |slots| - i
  {
    if i == |slots| then []
    else if slots[i].numBits == 0 || UsesRaw(slots[i]) then SrlItems(slots, deltas, i + 1)
    else [Srl.Item(deltas[i], slots[i].numBits)] + SrlItems(slots, deltas, i + 1)
  }

  /** What goes into the raw stream from slot `i` on, with `pad` zero bits behind it. */
  function RawBits(slots: seq<Slot>, deltas: seq<int>, i: nat, pad: nat): Stream
    requires |deltas| == |slots| && i <= |slots|
    decreases |slots| - i
  {
    if i == |slots| then Zeros(pad)
    else if slots[i].numBits == 0 || !UsesRaw(slots[i]) then RawBits(slots, deltas, i + 1, pad)
    else PutBits(Abs(deltas[i]), slots[i].numBits, RawBits(slots, deltas, i + 1, pad))
  }

  function Sent(slots: seq<Slot>, deltas: seq<int>, srlPad: nat, rawPad: nat): Streams
    requires |deltas| == |slots|
  {
    Begin(Srl.Encode(SrlItems(slots, deltas, 0), 8, srlPad), RawBits(slots, deltas, 0, rawPad))
  }

  // ---------- The receiver recovers what was sent ----------

  /** One slot: it reads exactly its refinement and leaves the streams at the next slot's. */
  lemma InputStep(slots: seq<Slot>, deltas: seq<int>, i: nat, st: Streams, srlPad: nat, rawPad: nat)
    returns (srlPad': nat)
    requires AllSendable(slots, deltas) && i < |slots|
    requires Srl.Ready(st.srl, SrlItems(slots, deltas, i), srlPad) && st.raw == RawBits(slots, deltas, i, rawPad)
    ensures var (input, st') := Input(slots[i], st);
            && input == deltas[i]
            && Srl.Ready(st'.srl, SrlItems(slots, deltas, i + 1), srlPad')
            && st'.raw == RawBits(slots, deltas, i + 1, rawPad)
  {
    hide Srl.Ready, Srl.Read, PutBits, GetBitsZ, GetBits, Pow2;
    var sl, delta := slots[i], deltas[i];
    srlPad' := srlPad;
    assert Sendable(sl, delta);
    if sl.numBits == 0 {
      Pow2Values();
    } else if UsesRaw(sl) {
      var v, rest := Abs(delta), RawBits(slots, deltas, i + 1, rawPad);
      LowIsAll(v, sl.numBits);
      GetPut(v, sl.numBits, rest);
      GetBitsLength(PutBits(v, sl.numBits, rest), sl.numBits, 0);
    } else {
      var items := SrlItems(slots, deltas, i);
      assert items[0] == Srl.Item(delta, sl.numBits) && items[1..] == SrlItems(slots, deltas, i + 1);
      srlPad' := Srl.ReadStep(st.srl, items, srlPad);
    }
  }

  lemma {:induction false} StreamsAtSlot(slots: seq<Slot>, deltas: seq<int>, i: nat, srlPad: nat, rawPad: nat)
    returns (srlPad': nat)
    requires AllSendable(slots, deltas) && i <= |slots|
    ensures var st := StreamsAt(slots, Sent(slots, deltas, srlPad, rawPad), i);
            && Srl.Ready(st.srl, SrlItems(slots, deltas, i), srlPad')
            && st.raw == RawBits(slots, deltas, i, rawPad)
  {
    hide Input, SrlItems, RawBits, Srl.Encode;
    if i == 0 {
      srlPad' := srlPad;
      var items := SrlItems(slots, deltas, 0);
      assert Srl.Drop(items, 0) == items;
    } else {
      var before := StreamsAtSlot(slots, deltas, i - 1, srlPad, rawPad);
      srlPad' := InputStep(slots, deltas, i - 1, StreamsAt(slots, Sent(slots, deltas, srlPad, rawPad), i - 1), before, rawPad);
    }
  }

  /** Every slot of a pass receives exactly the refinement that was sent for it. */
  lemma UpgradeRoundTrip(slots: seq<Slot>, deltas: seq<int>, srlPad: nat, rawPad: nat)
    requires AllSendable(slots, deltas)
    ensures var coefs := Upgrade(slots, Sent(slots, deltas, srlPad, rawPad));
            forall i :: 0 <= i < |slots| ==> coefs[i] == Refined(slots[i], deltas[i])
  {
    hide Input, SrlItems, RawBits, Sent, Refined, StreamsAt, Sendable;
    var st := Sent(slots, deltas, srlPad, rawPad);
    forall i | 0 <= i < |slots|
      ensures InputAt(slots, st, i) == deltas[i]
    {
      var before := StreamsAtSlot(slots, deltas, i, srlPad, rawPad);
      var after := InputStep(slots, deltas, i, StreamsAt(slots, st, i), before, rawPad);
    }
  }
}
