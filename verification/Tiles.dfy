/** Bit positions of the ten subbands (section 2.2.4.2.1.5.2 of MS-RDPEGFX). */
module Quants {
  import opened Machine

  /** One number per subband: HL1, LH1, HH1, HL2, LH2, HH2, HL3, LH3, HH3, LL3. */
  type Quant = q: seq<int> | |q| == 10 witness seq(10, i => 0)

  const ZERO: Quant := [0, 0, 0, 0, 0, 0, 0, 0, 0, 0]

  /** Ten nibbles: LL3, HL3, LH3, HH3, HL2, LH2, HH2, HL1, LH1, HH1, low nibble first. */
  function QuantOf(b: seq<Byte>): (q: Quant)
    requires |b| == 5
    ensures forall i :: 0 <= i < 10 ==> 0 <= q[i] < 16
  {
    [b[3] / 16, b[4] % 16, b[4] / 16, b[2] % 16, b[2] / 16, b[3] % 16, b[0] / 16, b[1] % 16, b[1] / 16, b[0] % 16]
  }

  function ReadQuant(data: seq<Byte>, p: nat): (r: Option<(Quant, nat)>)
    ensures r.Some? ==> p < r.value.1 <= |data| && forall i :: 0 <= i < 10 ==> 0 <= r.value.0[i] < 16
  {
    if p + 5 <= |data| then Some((QuantOf(data[p..p + 5]), p + 5)) else None
  }

  function Add(a: Quant, b: Quant): (r: Quant)
    ensures forall i :: 0 <= i < 10 ==> r[i] == a[i] + b[i]
  {
    seq(10, i requires 0 <= i < 10 => a[i] + b[i])
  }

  /** The shift that goes with a bit position; a position of zero has none. */
  function Sub1(a: Quant): (r: Option<Quant>)
    ensures r.Some? <==> forall i :: 0 <= i < 10 ==> a[i] >= 1
    ensures r.Some? ==> forall i :: 0 <= i < 10 ==> r.value[i] == a[i] - 1
  {
    if forall i :: 0 <= i < 10 ==> a[i] >= 1 then Some(seq(10, i requires 0 <= i < 10 => a[i] - 1)) else None
  }

  /** The bits an upgrade adds; a position that would rise is refused. */
  function CheckedSub(a: Quant, b: Quant): (r: Option<Quant>)
    ensures r.Some? <==> forall i :: 0 <= i < 10 ==> a[i] >= b[i]
    ensures r.Some? ==> forall i :: 0 <= i < 10 ==> r.value[i] == a[i] - b[i]
  {
    if forall i :: 0 <= i < 10 ==> a[i] >= b[i] then Some(seq(10, i requires 0 <= i < 10 => a[i] - b[i])) else None
  }
}

/** The coefficient state of one tile component, and what each kind of block does to it. */
module Planes {
  import opened Machine
  import opened Bits
  import opened Refinement
  import opened BandLayout
  import opened Quants
  import Rlgr
  import BP = BitPlanes

  /** Coefficients, signs of the significant ones, and how many low bits of each subband are unknown. */
  datatype Plane = Plane(current: seq<I16>, sign: seq<I16>, bits: Quant) {
    predicate Valid() {
      |current| == |sign| == COEFFICIENTS
    }
  }

  // ---------- LL3 is sent as differences ----------

  /** The `i`th value of a sequence of differences, wrapping. */
  function Running(s: seq<I16>, i: nat): I16
    requires i < |s|
  {
    if i == 0 then s[0] else Wrap16(Running(s, i - 1) as int + s[i])
  }

  function Differential(s: seq<I16>): (r: seq<I16>)
    ensures |r| == |s|
  {
    seq(|s|, i requires 0 <= i < |s| => Running(s, i))
  }

  /** The sender's differences. */
  function Differences(t: seq<I16>): (r: seq<I16>)
    ensures |r| == |t|
  {
    seq(|t|, i requires 0 <= i < |t| => if i == 0 then t[0] else Wrap16(t[i] as int - t[i - 1]))
  }

  lemma Wrap16Same(x: I16)
    ensures Wrap16(x) == x
  {
  }

  lemma {:induction false} RunningIs(t: seq<I16>, i: nat)
    requires i < |t|
    ensures Running(Differences(t), i) == t[i]
  {
    hide Wrap16;
    if i > 0 {
      RunningIs(t, i - 1);
      var step: int := t[i] as int - t[i - 1];
      assert Differences(t)[i] == Wrap16(step);
      Wrap16Add(t[i - 1], step);
      Wrap16Same(t[i]);
    }
  }

  /** Differences that wrap add up to the values again. */
  lemma DifferencesRoundTrip(t: seq<I16>)
    ensures Differential(Differences(t)) == t
  {
    forall i | 0 <= i < |t|
      ensures Differential(Differences(t))[i] == t[i]
    {
      RunningIs(t, i);
    }
  }

  // ---------- The first pass ----------

  /** Coefficients before dequantization: all but LL3 as they were coded, LL3 added up. */
  function Base(raw: seq<I16>, extrapolate: bool): (r: seq<I16>)
    requires |raw| == COEFFICIENTS
    ensures |r| == COEFFICIENTS
  {
    var ll := BandStart(extrapolate, 9);
    raw[..ll] + Differential(raw[ll..])
  }

  function ShiftAt(bits: Quant, extrapolate: bool, i: nat): nat
    requires i < COEFFICIENTS
  {
    Max(bits[BandOf(extrapolate, i)] - 1, 0)
  }

  /** The component that a TILE_SIMPLE or TILE_FIRST block carries. */
  function FirstPlane(data: seq<Byte>, bits: Quant, extrapolate: bool): (p: Plane)
    ensures p.Valid()
  {
    var raw := Rlgr.Coefficients(data, COEFFICIENTS);
    var base := Base(raw, extrapolate);
    Plane(seq(COEFFICIENTS, i requires 0 <= i < COEFFICIENTS => Wrap16(Shl(base[i], ShiftAt(bits, extrapolate, i)))), raw, bits)
  }

  // ---------- Differences between tiles ----------

  function Summed(a: seq<I16>, b: seq<I16>): (r: seq<I16>)
    requires |a| == |b|
    ensures |r| == |a|
  {
    seq(|a|, i requires 0 <= i < |a| => Wrap16(a[i] as int + b[i]))
  }

  /** A difference tile adds its coefficients, and its signs and bit positions replace those of the state. */
  function Differed(state: Plane, delta: Plane): (p: Plane)
    requires state.Valid() && delta.Valid()
    ensures p.Valid()
  {
    delta.(current := Summed(delta.current, state.current))
  }

  function DifferedAll(state: Plane, deltas: seq<Plane>): (p: Plane)
    requires state.Valid() && forall d :: d in deltas ==> d.Valid()
    ensures p.Valid()
    decreases |deltas|
  {
    if deltas == [] then state else DifferedAll(Differed(state, deltas[0]), deltas[1..])
  }

  function Total(deltas: seq<Plane>, i: nat): int
    requires i < COEFFICIENTS && forall d :: d in deltas ==> d.Valid()
    decreases |deltas|
  {
    if deltas == [] then 0
    else
      assert deltas[0] in deltas && deltas[0].Valid();
      deltas[0].current[i] + Total(deltas[1..], i)
  }

  /** A run of difference tiles leaves the wrapping sum of all their deltas on the baseline. */
  lemma {:induction false} DifferencesAccumulate(state: Plane, deltas: seq<Plane>, i: nat)
    requires state.Valid() && i < COEFFICIENTS && forall d :: d in deltas ==> d.Valid()
    ensures DifferedAll(state, deltas).current[i] == Wrap16(state.current[i] + Total(deltas, i))
    decreases |deltas|
  {
    hide Wrap16;
    if deltas == [] {
      Wrap16Same(state.current[i]);
    } else {
      assert deltas[0] in deltas;
      var next := Differed(state, deltas[0]);
      DifferencesAccumulate(next, deltas[1..], i);
      var sum: int := deltas[0].current[i] as int + state.current[i];
      assert next.current[i] == Wrap16(sum);
      Wrap16Add(Total(deltas[1..], i), sum);
    }
  }

  // ---------- Upgrades ----------

  function Currents(coefs: seq<Coef>): (r: seq<I16>)
    ensures |r| == |coefs|
  {
    seq(|coefs|, i requires 0 <= i < |coefs| => coefs[i].current)
  }

  function Signs(coefs: seq<Coef>): (r: seq<I16>)
    ensures |r| == |coefs|
  {
    seq(|coefs|, i requires 0 <= i < |coefs| => coefs[i].sign)
  }

  /** One upgrade of a component to the bit positions `bits`. */
  function Upgraded(p: Plane, srl: seq<Byte>, raw: seq<Byte>, bits: Quant, shifts: Quant, numBits: Quant, extrapolate: bool): (r: Plane)
    requires p.Valid()
    ensures r.Valid()
  {
    var coefs := Upgrade(ComponentSlots(Coefs(p.current, p.sign), shifts, numBits, extrapolate),
                         Begin(StreamOf(srl, 0), StreamOf(raw, 0)));
    Plane(Currents(coefs), Signs(coefs), bits)
  }

  // ---------- The plane as a component of module BitPlanes ----------

  function PerCoefficient(bits: Quant, extrapolate: bool): (r: seq<nat>)
    ensures |r| == COEFFICIENTS
  {
    seq(COEFFICIENTS, i requires 0 <= i < COEFFICIENTS => Max(bits[BandOf(extrapolate, i)], 0))
  }

  function ComponentOf(p: Plane, extrapolate: bool): BP.Component
    requires p.Valid()
  {
    BP.Component(Coefs(p.current, p.sign), PerCoefficient(p.bits, extrapolate), BandStart(extrapolate, 9))
  }

  ghost predicate Positive(bits: Quant) {
    forall i :: 0 <= i < 10 ==> bits[i] >= 1
  }

  /** The first pass puts every coefficient at its bit position, with its sign; LL3 needs no sign. */
  lemma FirstPassIsExact(data: seq<Byte>, bits: Quant, extrapolate: bool)
    requires Positive(bits)
    ensures var comp := ComponentOf(FirstPlane(data, bits, extrapolate), extrapolate);
            BP.Valid(comp) && BP.AllExact(comp, Base(Rlgr.Coefficients(data, COEFFICIENTS), extrapolate))
  {
    hide Rlgr.Coefficients, Shl, Wrap16, BandOf, BandStart, Differential;
  }

  /** An upgrade that lowers no position by more than fifteen is a pass over the component. */
  lemma UpgradeIsPass(p: Plane, srl: seq<Byte>, raw: seq<Byte>, bits: Quant, extrapolate: bool)
    requires p.Valid() && Positive(bits) && Positive(p.bits)
    requires forall i :: 0 <= i < 10 ==> bits[i] <= p.bits[i] <= bits[i] + 15
    ensures var comp := ComponentOf(p, extrapolate);
            var pass := BP.Pass(PerCoefficient(bits, extrapolate), StreamOf(srl, 0), StreamOf(raw, 0));
            && BP.Legal(comp, pass.bits)
            && ComponentOf(Upgraded(p, srl, raw, bits, Sub1(bits).value, CheckedSub(p.bits, bits).value, extrapolate), extrapolate)
               == BP.Apply(comp, pass)
  {
    hide Upgrade, Begin, StreamOf, BandStart, BandOf;
    var comp := ComponentOf(p, extrapolate);
    var pass := BP.Pass(PerCoefficient(bits, extrapolate), StreamOf(srl, 0), StreamOf(raw, 0));
    var slots := ComponentSlots(comp.coefs, Sub1(bits).value, CheckedSub(p.bits, bits).value, extrapolate);
    SameSlots(p, bits, extrapolate);
    assert slots == BP.Slots(comp, pass.bits);
    var coefs := Upgrade(slots, Begin(pass.srl, pass.raw));
    assert Coefs(Currents(coefs), Signs(coefs)) == coefs;
  }

  lemma LowBands(extrapolate: bool, i: nat)
    requires i < COEFFICIENTS
    ensures BandOf(extrapolate, i) < 9 <==> i < BandStart(extrapolate, 9)
  {
    hide BandStart, BandOf;
    if BandOf(extrapolate, i) < 9 {
      BandsAscend(extrapolate, BandOf(extrapolate, i) + 1, 9);
    }
  }

  lemma SameSlots(p: Plane, bits: Quant, extrapolate: bool)
    requires p.Valid() && Positive(bits) && Positive(p.bits)
    requires forall i :: 0 <= i < 10 ==> bits[i] <= p.bits[i] <= bits[i] + 15
    ensures var comp := ComponentOf(p, extrapolate);
            && BP.Legal(comp, PerCoefficient(bits, extrapolate))
            && ComponentSlots(comp.coefs, Sub1(bits).value, CheckedSub(p.bits, bits).value, extrapolate)
               == BP.Slots(comp, PerCoefficient(bits, extrapolate))
  {
    hide BandStart, BandOf, Coefs;
    forall i | 0 <= i < COEFFICIENTS
      ensures BandOf(extrapolate, i) < 9 <==> i < BandStart(extrapolate, 9)
    {
      LowBands(extrapolate, i);
    }
  }

  // ---------- Runs of upgrades ----------

  datatype Step = Step(srl: seq<Byte>, raw: seq<Byte>, bits: Quant)

  ghost predicate LegalStep(p: Plane, s: Step) {
    && p.Valid() && Positive(p.bits) && Positive(s.bits)
    && forall i :: 0 <= i < 10 ==> s.bits[i] <= p.bits[i] <= s.bits[i] + 15
  }

  function Apply(p: Plane, s: Step, extrapolate: bool): (r: Plane)
    requires LegalStep(p, s)
    ensures r.Valid() && r.bits == s.bits
  {
    Upgraded(p, s.srl, s.raw, s.bits, Sub1(s.bits).value, CheckedSub(p.bits, s.bits).value, extrapolate)
  }

  ghost predicate LegalSteps(p: Plane, steps: seq<Step>, extrapolate: bool)
    decreases |steps|
  {
    steps == [] || (LegalStep(p, steps[0]) && LegalSteps(Apply(p, steps[0], extrapolate), steps[1..], extrapolate))
  }

  ghost function ApplyAll(p: Plane, steps: seq<Step>, extrapolate: bool): (r: Plane)
    requires p.Valid() && LegalSteps(p, steps, extrapolate)
    ensures r.Valid()
    decreases |steps|
  {
    if steps == [] then p else ApplyAll(Apply(p, steps[0], extrapolate), steps[1..], extrapolate)
  }

  function Passes(steps: seq<Step>, extrapolate: bool): seq<BP.Pass> {
    if steps == [] then []
    else [BP.Pass(PerCoefficient(steps[0].bits, extrapolate), StreamOf(steps[0].srl, 0), StreamOf(steps[0].raw, 0))]
         + Passes(steps[1..], extrapolate)
  }

  /** A run of upgrades of a component is a run of passes over it. */
  lemma {:induction false} StepsArePasses(p: Plane, steps: seq<Step>, extrapolate: bool)
    requires p.Valid() && LegalSteps(p, steps, extrapolate)
    ensures BP.LegalRun(ComponentOf(p, extrapolate), Passes(steps, extrapolate))
    ensures ComponentOf(ApplyAll(p, steps, extrapolate), extrapolate) == BP.Run(ComponentOf(p, extrapolate), Passes(steps, extrapolate))
    decreases |steps|
  {
    hide Upgraded, ComponentOf, PerCoefficient, StreamOf, BP.Apply, BP.Legal;
    if steps != [] {
      UpgradeIsPass(p, steps[0].srl, steps[0].raw, steps[0].bits, extrapolate);
      StepsArePasses(Apply(p, steps[0], extrapolate), steps[1..], extrapolate);
      assert Passes(steps, extrapolate)[1..] == Passes(steps[1..], extrapolate);
    }
  }

  /**
   After one block that is not a difference and any run of upgrades in the same layout, every
   coefficient is, modulo 2^16, the number that its first pass and all later bits spell, shifted to
   its bit position; for LL3 the first pass spells the sum of the differences.
   */
  lemma TileIsExact(data: seq<Byte>, bits: Quant, steps: seq<Step>, extrapolate: bool)
    requires Positive(bits) && LegalSteps(FirstPlane(data, bits, extrapolate), steps, extrapolate)
    ensures var p := FirstPlane(data, bits, extrapolate);
            var first, passes := ComponentOf(p, extrapolate), Passes(steps, extrapolate);
            var base := Base(Rlgr.Coefficients(data, COEFFICIENTS), extrapolate);
            var last := ComponentOf(ApplyAll(p, steps, extrapolate), extrapolate);
            && BP.LegalRun(first, passes) && BP.Valid(last) && BP.AllExact(last, BP.Learned(first, base, passes))
  {
    hide FirstPlane, ComponentOf, Base, BP.AllExact, BP.Run, BP.Learned, BP.LegalRun, LegalSteps, ApplyAll, Passes, Rlgr.Coefficients;
    var p := FirstPlane(data, bits, extrapolate);
    var base := Base(Rlgr.Coefficients(data, COEFFICIENTS), extrapolate);
    FirstPassIsExact(data, bits, extrapolate);
    StepsArePasses(p, steps, extrapolate);
    ExactSize(ComponentOf(p, extrapolate), base);
    BP.RunIsExact(ComponentOf(p, extrapolate), base, Passes(steps, extrapolate));
  }

  lemma ExactSize(comp: BP.Component, vs: seq<int>)
    requires BP.Valid(comp) && BP.AllExact(comp, vs)
    ensures |vs| == |comp.coefs|
  {
  }

  // ---------- A sender's first pass ----------

  /** What the sender codes so that the receiver knows `ts` at the bit positions `bits`. */
  function FirstCode(ts: seq<int>, bits: Quant, extrapolate: bool): (r: seq<I16>)
    requires |ts| == COEFFICIENTS && Positive(bits)
    ensures |r| == COEFFICIENTS
  {
    var ll := BandStart(extrapolate, 9);
    var known := seq(COEFFICIENTS, i requires 0 <= i < COEFFICIENTS => Wrap16(KnownOf(ts, bits, extrapolate, i)));
    known[..ll] + Differences(known[ll..])
  }

  function KnownOf(ts: seq<int>, bits: Quant, extrapolate: bool, i: nat): int
    requires |ts| == COEFFICIENTS && Positive(bits) && i < COEFFICIENTS
  {
    BP.KnownAt(ts[i], i < BandStart(extrapolate, 9), bits[BandOf(extrapolate, i)])
  }

  /** The coefficients a sender may start from. */
  ghost predicate Codable(ts: seq<int>) {
    |ts| == COEFFICIENTS && forall i :: 0 <= i < |ts| ==> -0x8000 <= ts[i] < 0x8000
  }

  lemma KnownFits(t: int, nonLl: bool, b: nat)
    requires -0x8000 <= t < 0x8000 && b >= 1
    ensures -0x8000 <= BP.KnownAt(t, nonLl, b) < 0x8000
  {
    ShrFits(t, b - 1);
  }

  lemma {:induction false} ShrFits(t: int, n: nat)
    ensures t >= 0 ==> 0 <= Shr(t, n) <= t
    ensures t < 0 ==> t <= Shr(t, n) < 0
    decreases n
  {
    if n > 0 {
      ShrFits(t / 2, n - 1);
    }
  }

  lemma BaseOfFirstCode(ts: seq<int>, bits: Quant, extrapolate: bool)
    requires Codable(ts) && Positive(bits)
    ensures forall i :: 0 <= i < COEFFICIENTS ==> Base(FirstCode(ts, bits, extrapolate), extrapolate)[i] == KnownOf(ts, bits, extrapolate, i)
  {
    hide BandStart, BandOf, BP.KnownAt, Differences, Differential;
    var ll := BandStart(extrapolate, 9);
    var known := seq(COEFFICIENTS, i requires 0 <= i < COEFFICIENTS => Wrap16(KnownOf(ts, bits, extrapolate, i)));
    var code := FirstCode(ts, bits, extrapolate);
    assert code[..ll] == known[..ll] && code[ll..] == Differences(known[ll..]);
    DifferencesRoundTrip(known[ll..]);
    assert Base(code, extrapolate) == known;
    forall i | 0 <= i < COEFFICIENTS
      ensures known[i] == KnownOf(ts, bits, extrapolate, i)
    {
      KnownFits(ts[i], i < ll, bits[BandOf(extrapolate, i)]);
    }
  }

  /** The sender's first block, entropy coded and decoded, shows its coefficients at the chosen bit positions. */
  lemma FirstBlockShows(ts: seq<int>, bits: Quant, extrapolate: bool)
    requires Codable(ts) && Positive(bits)
    ensures var data := Pack(Rlgr.Encode(FirstCode(ts, bits, extrapolate), Rlgr.INITIAL, 0));
            var comp := ComponentOf(FirstPlane(data, bits, extrapolate), extrapolate);
            BP.Valid(comp) && BP.AllExact(comp, BP.Known(ts, comp.bits, comp.ll))
  {
    hide Rlgr.Coefficients, Rlgr.Encode, Pack, FirstCode, FirstPlane, Base, BandOf, BandStart, BP.KnownAt, Shl, Wrap16;
    var code := FirstCode(ts, bits, extrapolate);
    var data := Pack(Rlgr.Encode(code, Rlgr.INITIAL, 0));
    Rlgr.RoundTrip(code);
    FirstPassIsExact(data, bits, extrapolate);
    BaseOfFirstCode(ts, bits, extrapolate);
    FirstPlaneBits(data, bits, extrapolate);
    var comp := ComponentOf(FirstPlane(data, bits, extrapolate), extrapolate);
    assert Base(code, extrapolate) == BP.Known(ts, comp.bits, comp.ll);
  }

  lemma FirstPlaneBits(data: seq<Byte>, bits: Quant, extrapolate: bool)
    ensures FirstPlane(data, bits, extrapolate).bits == bits
  {
  }

  /**
   Whatever bit positions the sender goes through, and however it pads its streams, once a
   coefficient's bit position is one the receiver holds exactly that coefficient.
   */
  lemma SenderLosesNothing(ts: seq<int>, bits: Quant, plan: seq<BP.Step>, extrapolate: bool)
    requires Codable(ts) && Positive(bits)
    requires var data := Pack(Rlgr.Encode(FirstCode(ts, bits, extrapolate), Rlgr.INITIAL, 0));
             BP.LegalPlan(ComponentOf(FirstPlane(data, bits, extrapolate), extrapolate), ts, plan)
    ensures var data := Pack(Rlgr.Encode(FirstCode(ts, bits, extrapolate), Rlgr.INITIAL, 0));
            var last := BP.Refine(ComponentOf(FirstPlane(data, bits, extrapolate), extrapolate), ts, plan);
            && |last.bits| == |last.coefs| == COEFFICIENTS
            && forall i :: 0 <= i < COEFFICIENTS && last.bits[i] == 1 ==> last.coefs[i].current == ts[i]
  {
    hide Rlgr.Encode, Pack, FirstCode, FirstPlane, ComponentOf, BP.LegalPlan, BP.Refine, BP.Known, BP.AllExact;
    var data := Pack(Rlgr.Encode(FirstCode(ts, bits, extrapolate), Rlgr.INITIAL, 0));
    FirstBlockShows(ts, bits, extrapolate);
    BP.RefinementIsLossless(ComponentOf(FirstPlane(data, bits, extrapolate), extrapolate), ts, plan);
  }
}
