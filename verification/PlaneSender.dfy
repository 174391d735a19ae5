/** A sender of one tile component, down to its bytes, and what the receiver's coefficients show of it. */
module PlaneSender {
  import opened Machine
  import opened Bits
  import opened AdaptiveRun
  import opened BandLayout
  import opened Quants
  import opened Planes
  import RF = Refinement
  import TB = TileBlocks
  import BP = BitPlanes
  import Rlgr
  import Srl

  // ---------- The last byte of a stream ----------

  lemma AppendValue(item: Srl.Item, rest: Stream, zeros: nat)
    requires item.value != 0
    ensures Append(Srl.EncodeValue(item, rest), zeros) == Srl.EncodeValue(item, Append(rest, zeros))
  {
    var mag: nat := Abs(item.value);
    var end := if mag >= Pow2(item.numBits) - 1 then rest else Bit(true, rest);
    AppendRepeat(false, mag - 1, end, zeros);
  }

  /** The zero bits that fill up the last byte are padding like any other. */
  lemma {:induction false} SrlPads(items: seq<Srl.Item>, kp: Kp, pad: nat, zeros: nat)
    ensures Append(Srl.Encode(items, kp, pad), zeros) == Srl.Encode(items, kp, pad + zeros)
    decreases |items|
  {
    hide Srl.EncodeValue, PutBits, Pow2, Zeros;
    var z, full := Srl.LeadingZeros(items), Pow2(kp / 8);
    Pow2Positive(kp / 8);
    if z == |items| {
      AppendZeros(pad, zeros);
    } else if z >= full {
      SrlPads(items[full..], Grow(kp, 4), pad, zeros);
    } else {
      var rest := Srl.Encode(items[z + 1..], Shrink(kp, 6), pad);
      SrlPads(items[z + 1..], Shrink(kp, 6), pad, zeros);
      AppendValue(items[z], rest, zeros);
      AppendPutBits(z, kp / 8, Srl.EncodeValue(items[z], rest), zeros);
    }
  }

  lemma Pow2Positive(n: nat)
    ensures Pow2(n) >= 1
  {
  }

  lemma {:induction false} RawPads(slots: seq<RF.Slot>, deltas: seq<int>, i: nat, pad: nat, zeros: nat)
    requires |deltas| == |slots| && i <= |slots|
    ensures Append(RF.RawBits(slots, deltas, i, pad), zeros) == RF.RawBits(slots, deltas, i, pad + zeros)
    decreases |slots| - i
  {
    hide PutBits, Zeros;
    if i == |slots| {
      AppendZeros(pad, zeros);
    } else {
      RawPads(slots, deltas, i + 1, pad, zeros);
      AppendPutBits(Abs(deltas[i]), slots[i].numBits, RF.RawBits(slots, deltas, i + 1, pad), zeros);
    }
  }

  // ---------- What a plane shows ----------

  /** What the receiver holds of the coefficients `ts` at the bit positions `bits`: their high bits, each in its place. */
  function Truncated(ts: seq<int>, bits: Quant, extrapolate: bool): (r: seq<I16>)
    requires |ts| == COEFFICIENTS && Positive(bits)
    ensures |r| == COEFFICIENTS
  {
    seq(COEFFICIENTS, i requires 0 <= i < COEFFICIENTS =>
      Wrap16(Shl(KnownOf(ts, bits, extrapolate, i), bits[BandOf(extrapolate, i)] - 1)))
  }

  /** The plane holds `ts` at its bit positions, with the signs of what has become significant. */
  ghost predicate Shows(p: Plane, ts: seq<int>, extrapolate: bool) {
    && p.Valid() && Positive(p.bits) && Codable(ts)
    && var comp := ComponentOf(p, extrapolate);
       BP.Valid(comp) && BP.AllExact(comp, BP.Known(ts, comp.bits, comp.ll))
  }

  lemma ShowsTruncated(p: Plane, ts: seq<int>, extrapolate: bool)
    requires Shows(p, ts, extrapolate)
    ensures p.current == Truncated(ts, p.bits, extrapolate)
  {
    hide BandOf, BandStart, BP.KnownAt, Shl, Wrap16;
    var comp := ComponentOf(p, extrapolate);
    forall i | 0 <= i < COEFFICIENTS
      ensures p.current[i] == Truncated(ts, p.bits, extrapolate)[i]
    {
      assert BP.Exact(comp.coefs[i], i < comp.ll, comp.bits[i], BP.Known(ts, comp.bits, comp.ll)[i]);
    }
  }

  /** At bit position one throughout, nothing is missing. */
  lemma NothingMissing(ts: seq<int>, bits: Quant, extrapolate: bool)
    requires Codable(ts) && forall i :: 0 <= i < 10 ==> bits[i] == 1
    ensures forall i :: 0 <= i < COEFFICIENTS ==> Truncated(ts, bits, extrapolate)[i] == ts[i]
  {
    hide BandOf, BandStart, BP.KnownAt;
    forall i | 0 <= i < COEFFICIENTS
      ensures Truncated(ts, bits, extrapolate)[i] == ts[i]
    {
      BP.KnownAtOne(ts[i], i < BandStart(extrapolate, 9));
    }
  }

  // ---------- The first block ----------

  function FirstBytes(ts: seq<int>, bits: Quant, extrapolate: bool): seq<Byte>
    requires |ts| == COEFFICIENTS && Positive(bits)
  {
    Pack(Rlgr.Encode(FirstCode(ts, bits, extrapolate), Rlgr.INITIAL, 0))
  }

  lemma FirstShows(ts: seq<int>, bits: Quant, extrapolate: bool)
    requires Codable(ts) && Positive(bits)
    ensures Shows(FirstPlane(FirstBytes(ts, bits, extrapolate), bits, extrapolate), ts, extrapolate)
    ensures FirstPlane(FirstBytes(ts, bits, extrapolate), bits, extrapolate).bits == bits
  {
    hide Rlgr.Encode, Pack, FirstCode, FirstPlane, ComponentOf, BP.AllExact, BP.Known;
    FirstBlockShows(ts, bits, extrapolate);
    FirstPlaneBits(FirstBytes(ts, bits, extrapolate), bits, extrapolate);
  }

  // ---------- Upgrades ----------

  /** An upgrade may lower every bit position by up to fifteen. */
  ghost predicate Lowers(from: Quant, to: Quant) {
    forall i :: 0 <= i < 10 ==> 1 <= to[i] <= from[i] <= to[i] + 15
  }

  lemma LowersIsLegal(p: Plane, bits: Quant, extrapolate: bool)
    requires p.Valid() && Lowers(p.bits, bits)
    ensures BP.Legal(ComponentOf(p, extrapolate), PerCoefficient(bits, extrapolate))
  {
    hide BandOf, BandStart;
  }

  /** The two streams that take a plane to the bit positions `bits`, padded at will. */
  ghost function UpgradeBytes(p: Plane, ts: seq<int>, bits: Quant, pads: (nat, nat), extrapolate: bool): TB.Streams
    requires p.Valid() && |ts| == COEFFICIENTS && Lowers(p.bits, bits)
  {
    LowersIsLegal(p, bits, extrapolate);
    var pass := BP.SenderPass(ComponentOf(p, extrapolate), ts, PerCoefficient(bits, extrapolate), pads.0, pads.1);
    TB.Streams(Pack(pass.srl), Pack(pass.raw))
  }

  /** Packed into bytes, a sender's pass is the same pass with a little more padding. */
  lemma PackedPass(comp: BP.Component, ts: seq<int>, bits: seq<nat>, srlPad: nat, rawPad: nat)
    returns (srlPad': nat, rawPad': nat)
    requires BP.Legal(comp, bits) && |ts| == |bits|
    ensures var pass := BP.SenderPass(comp, ts, bits, srlPad, rawPad);
            BP.Pass(bits, StreamOf(Pack(pass.srl), 0), StreamOf(Pack(pass.raw), 0)) == BP.SenderPass(comp, ts, bits, srlPad', rawPad')
  {
    hide StreamOf, Pack, Append, PadLength, Srl.Encode, RF.RawBits, RF.SrlItems, BP.Slots, BP.Deltas;
    var pass := BP.SenderPass(comp, ts, bits, srlPad, rawPad);
    var slots, deltas := BP.Slots(comp, bits), BP.Deltas(comp, ts, bits);
    var more, more' := PadLength(Length(pass.srl)), PadLength(Length(pass.raw));
    StreamOfPack(pass.srl);
    StreamOfPack(pass.raw);
    SrlPads(RF.SrlItems(slots, deltas, 0), 8, srlPad, more);
    RawPads(slots, deltas, 0, rawPad, more');
    srlPad', rawPad' := srlPad + more, rawPad + more';
  }

  lemma LowersBits(from: Quant, to: Quant)
    requires Lowers(from, to)
    ensures Positive(from) && Positive(to) && CheckedSub(from, to).Some? && Sub1(to).Some?
  {
  }

  /** The receiver takes an upgrade of a plane it shows, and shows the coefficients at the new bit positions. */
  lemma UpgradeShows(p: Plane, ts: seq<int>, bits: Quant, pads: (nat, nat), extrapolate: bool)
    requires Shows(p, ts, extrapolate) && Lowers(p.bits, bits)
    ensures TB.MayUpgrade(p, bits)
    ensures var r := TB.UpgradedPlane(p, UpgradeBytes(p, ts, bits, pads, extrapolate), bits, extrapolate);
            Shows(r, ts, extrapolate) && r.bits == bits
  {
    hide Pack, StreamOf, ComponentOf, PerCoefficient, BP.SenderPass, BP.Apply, BP.AllExact, BP.Known, BP.Legal, Upgraded;
    LowersIsLegal(p, bits, extrapolate);
    LowersBits(p.bits, bits);
    var comp, to := ComponentOf(p, extrapolate), PerCoefficient(bits, extrapolate);
    var s := UpgradeBytes(p, ts, bits, pads, extrapolate);
    var srlPad, rawPad := PackedPass(comp, ts, to, pads.0, pads.1);
    UpgradeIsPass(p, s.srl, s.raw, bits, extrapolate);
    BP.SenderPassShows(comp, ts, to, srlPad, rawPad);
    PassLeaves(comp, BP.SenderPass(comp, ts, to, srlPad, rawPad));
  }

  lemma PassLeaves(comp: BP.Component, pass: BP.Pass)
    requires BP.Legal(comp, pass.bits)
    ensures BP.Apply(comp, pass).bits == pass.bits && BP.Apply(comp, pass).ll == comp.ll
  {
  }
}
