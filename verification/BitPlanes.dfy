/**
 What the coefficients of a component mean after its first pass and any run of upgrade
 passes, and why a sender that refines a tile down to bit position one loses nothing.
 */
module BitPlanes {
  import opened Machine
  import opened Bits
  import opened AdaptiveRun
  import opened Refinement
  import Srl

  /** Coefficients with the bit position of each; those from `ll` on belong to LL3. */
  datatype Component = Component(coefs: seq<Coef>, bits: seq<nat>, ll: nat)

  predicate Valid(comp: Component) {
    |comp.bits| == |comp.coefs| && forall i :: 0 <= i < |comp.bits| ==> comp.bits[i] >= 1
  }

  /** The coefficient holds the number `v` at bit position `b`, and its sign is known. */
  predicate Exact(c: Coef, nonLl: bool, b: nat, v: int)
    requires b >= 1
  {
    c.current == Wrap16(Shl(v, b - 1)) && (nonLl ==> Sgn(c.sign) == Sgn(v))
  }

  predicate AllExact(comp: Component, vs: seq<int>)
    requires Valid(comp)
  {
    |vs| == |comp.coefs| &&
    forall i :: 0 <= i < |vs| ==> Exact(comp.coefs[i], i < comp.ll, comp.bits[i], vs[i])
  }

  // ---------- One coefficient, one pass ----------

  lemma {:induction false} MagnitudeBound(s: Stream, mag: nat, max: nat)
    ensures mag <= Srl.Magnitude(s, mag, max).0 <= Max(mag, max)
    decreases max - mag
  {
    if mag < max && !HeadZ(s) {
      MagnitudeBound(NextZ(s), mag + 1, max);
    }
  }

  lemma SmallWraps(m: int)
    requires -0x8000 < m < 0x8000
    ensures Wrap16(m) == m
  {
  }

  lemma ReadValueBound(s: Stream, kp: Kp, numBits: nat)
    requires 1 <= numBits <= 15
    ensures Abs(Srl.ReadValue(s, kp, numBits).0) < Pow2(numBits)
  {
    hide Pow2, Srl.Magnitude, NextZ, HeadZ, Wrap16;
    Pow2Values();
    Pow2Mono(numBits, 15);
    Pow2Mono(1, numBits);
    MagnitudeBound(NextZ(s), 1, Pow2(numBits) - 1);
    var m: int := Srl.Magnitude(NextZ(s), 1, Pow2(numBits) - 1).0;
    SmallWraps(m);
    SmallWraps(0 - m);
  }

  lemma ReadBound(st: Srl.State, numBits: nat)
    requires 1 <= numBits <= 15
    ensures Abs(Srl.Read(st, numBits).0) < Pow2(numBits)
  {
    hide Pow2, Srl.ReadValue, GetBitsZ;
    ReadValueBound(st.s, st.kp, numBits);
    ReadValueBound(GetBitsZ(NextZ(st.s), st.kp / 8, 0).1, st.kp, numBits);
  }

  /** Whatever the streams hold, a slot reads a refinement that a sender could have meant. */
  lemma InputIsSendable(sl: Slot, st: Streams)
    requires sl.numBits <= 15
    ensures Sendable(sl, Input(sl, st).0)
  {
    hide Srl.Read, GetBitsZ, Pow2;
    if sl.numBits > 0 {
      if UsesRaw(sl) {
        GetBitsZBound(st.raw, sl.numBits);
      } else {
        ReadBound(st.srl, sl.numBits);
      }
    } else {
      Pow2Values();
    }
  }

  /**
   Refining appends bits: the number at the new bit position is the old one shifted left by
   the bits added, plus the refinement, and magnitudes are concatenated the same way.
   */
  lemma RefineExact(sl: Slot, b: nat, v: int, input: int)
    requires Sendable(sl, input)
    requires sl.numBits < b && sl.shift == b - sl.numBits - 1
    requires Exact(sl.coef, sl.nonLl, b, v)
    ensures Exact(Refined(sl, input), sl.nonLl, b - sl.numBits, Shl(v, sl.numBits) + input)
    ensures sl.nonLl ==> Abs(Shl(v, sl.numBits) + input) == Shl(Abs(v), sl.numBits) + Abs(input)
  {
    hide Shl, Wrap16, Pow2;
    var n, at := sl.numBits, sl.shift;
    Wrap16Add(Shl(v, b - 1), Shl(input, at));
    assert b - 1 == n + at;
    ShlShl(v, n, at);
    ShlAdd(Shl(v, n), input, at);
    ShlAdd(v, 0, n);
    SignOfRefined(sl, v, input);
  }

  lemma SignOfRefined(sl: Slot, v: int, input: int)
    requires Sendable(sl, input)
    requires sl.nonLl ==> Sgn(sl.coef.sign) == Sgn(v)
    ensures sl.nonLl ==> Sgn(Refined(sl, input).sign) == Sgn(Shl(v, sl.numBits) + input)
    ensures sl.nonLl ==> Sgn(input) == 0 || Sgn(v) == 0 || Sgn(input) == Sgn(v)
  {
    hide Shl;
    Pow2Values();
    Pow2Mono(sl.numBits, 15);
    Pow2Values();
    ShlZero(sl.numBits);
  }

  lemma {:induction false} ShlZero(n: nat)
    ensures Shl(0, n) == 0
  {
  }

  // ---------- Runs of passes over a whole component ----------

  /** One upgrade pass: the new bit positions and the two streams. */
  datatype Pass = Pass(bits: seq<nat>, srl: Stream, raw: Stream)

  /** A refinement never raises a bit position and adds at most fifteen bits. */
  predicate Legal(comp: Component, bits: seq<nat>) {
    && |bits| == |comp.bits| == |comp.coefs|
    && forall i :: 0 <= i < |bits| ==> 1 <= bits[i] <= comp.bits[i] <= bits[i] + 15
  }

  function Slots(comp: Component, bits: seq<nat>): (r: seq<Slot>)
    requires Legal(comp, bits)
    ensures |r| == |bits|
  {
    seq(|bits|, i requires 0 <= i < |bits| =>
      Slot(comp.coefs[i], bits[i] - 1, comp.bits[i] - bits[i], i < comp.ll))
  }

  function Apply(comp: Component, pass: Pass): (r: Component)
    requires Legal(comp, pass.bits)
    ensures Valid(r)
  {
    Component(Upgrade(Slots(comp, pass.bits), Begin(pass.srl, pass.raw)), pass.bits, comp.ll)
  }

  /** The numbers known after a pass. */
  function Learn(comp: Component, vs: seq<int>, pass: Pass): (r: seq<int>)
    requires Legal(comp, pass.bits) && |vs| == |comp.coefs|
    ensures |r| == |vs|
  {
    seq(|vs|, i requires 0 <= i < |vs| =>
      Shl(vs[i], comp.bits[i] - pass.bits[i])
      + InputAt(Slots(comp, pass.bits), Begin(pass.srl, pass.raw), i))
  }

  /** The magnitude known after a pass is the one before it with the new bits appended. */
  predicate Concatenated(comp: Component, vs: seq<int>, pass: Pass, i: nat)
    requires Legal(comp, pass.bits) && |vs| == |comp.coefs| && i < |vs|
  {
    Abs(Learn(comp, vs, pass)[i])
    == Shl(Abs(vs[i]), comp.bits[i] - pass.bits[i])
       + Abs(InputAt(Slots(comp, pass.bits), Begin(pass.srl, pass.raw), i))
  }

  lemma PassIsExact(comp: Component, vs: seq<int>, pass: Pass)
    requires Valid(comp) && AllExact(comp, vs) && Legal(comp, pass.bits)
    ensures AllExact(Apply(comp, pass), Learn(comp, vs, pass))
    ensures forall i :: 0 <= i < |vs| && i < comp.ll ==> Concatenated(comp, vs, pass, i)
  {
    hide Input, Refined, Exact, Sendable, StreamsAt, Shl;
    var slots, st := Slots(comp, pass.bits), Begin(pass.srl, pass.raw);
    forall i | 0 <= i < |vs|
      ensures Exact(Refined(slots[i], InputAt(slots, st, i)), i < comp.ll, pass.bits[i], Learn(comp, vs, pass)[i])
      ensures i < comp.ll ==> Concatenated(comp, vs, pass, i)
    {
      InputIsSendable(slots[i], StreamsAt(slots, st, i));
      RefineExact(slots[i], comp.bits[i], vs[i], InputAt(slots, st, i));
    }
  }

  predicate LegalRun(comp: Component, passes: seq<Pass>)
    decreases |passes|
  {
    passes == [] || (Legal(comp, passes[0].bits) && LegalRun(Apply(comp, passes[0]), passes[1..]))
  }

  function Run(comp: Component, passes: seq<Pass>): Component
    requires LegalRun(comp, passes)
    decreases |passes|
  {
    if passes == [] then comp else Run(Apply(comp, passes[0]), passes[1..])
  }

  function Learned(comp: Component, vs: seq<int>, passes: seq<Pass>): seq<int>
    requires LegalRun(comp, passes) && |vs| == |comp.coefs|
    decreases |passes|
  {
    if passes == [] then vs else Learned(Apply(comp, passes[0]), Learn(comp, vs, passes[0]), passes[1..])
  }

  /** The bits a run of passes adds to coefficient `i`. */
  function BitsAdded(comp: Component, passes: seq<Pass>, i: nat): nat
    requires LegalRun(comp, passes) && i < |comp.coefs| == |comp.bits|
    decreases |passes|
  {
    if passes == [] then 0
    else comp.bits[i] - passes[0].bits[i] + BitsAdded(Apply(comp, passes[0]), passes[1..], i)
  }

  /**
   Over any run of legal upgrade passes, whatever their streams hold, every coefficient stays
   sign x magnitude x 2^(bit position - 1) modulo 2^16.
   */
  lemma {:induction false} RunIsExact(comp: Component, vs: seq<int>, passes: seq<Pass>)
    requires Valid(comp) && AllExact(comp, vs) && LegalRun(comp, passes)
    ensures Valid(Run(comp, passes)) && AllExact(Run(comp, passes), Learned(comp, vs, passes))
    decreases |passes|
  {
    hide Learn, Apply, Exact, Upgrade;
    if passes != [] {
      PassIsExact(comp, vs, passes[0]);
      RunIsExact(Apply(comp, passes[0]), Learn(comp, vs, passes[0]), passes[1..]);
    }
  }

  /** The bits added telescope to the initial less the final bit position. */
  lemma {:induction false} BitsTelescope(comp: Component, passes: seq<Pass>, i: nat)
    requires LegalRun(comp, passes) && i < |comp.coefs| == |comp.bits|
    ensures |Run(comp, passes).bits| == |comp.bits|
    ensures comp.bits[i] == BitsAdded(comp, passes, i) + Run(comp, passes).bits[i]
    decreases |passes|
  {
    hide Upgrade;
    if passes != [] {
      BitsTelescope(Apply(comp, passes[0]), passes[1..], i);
    }
  }

  // ---------- A sender that refines a tile it knows ----------

  /** What is known of the coefficient `t` at bit position `b`. */
  function KnownAt(t: int, nonLl: bool, b: nat): int
    requires b >= 1
  {
    if nonLl && t < 0 then -Shr(-t, b - 1) else Shr(t, b - 1)
  }

  function Known(ts: seq<int>, bits: seq<nat>, ll: nat): (r: seq<int>)
    requires |bits| == |ts| && forall i :: 0 <= i < |bits| ==> bits[i] >= 1
    ensures |r| == |ts|
  {
    seq(|ts|, i requires 0 <= i < |ts| => KnownAt(ts[i], i < ll, bits[i]))
  }

  /** The refinements that take a component to the new bit positions. */
  function Deltas(comp: Component, ts: seq<int>, bits: seq<nat>): (r: seq<int>)
    requires Legal(comp, bits) && |ts| == |bits|
    ensures |r| == |bits|
  {
    seq(|bits|, i requires 0 <= i < |bits| =>
      KnownAt(ts[i], i < comp.ll, bits[i]) - Shl(KnownAt(ts[i], i < comp.ll, comp.bits[i]), comp.bits[i] - bits[i]))
  }

  /** The pass the sender emits; both streams may be padded at will. */
  function SenderPass(comp: Component, ts: seq<int>, bits: seq<nat>, srlPad: nat, rawPad: nat): Pass
    requires Legal(comp, bits) && |ts| == |bits|
  {
    var slots, deltas := Slots(comp, bits), Deltas(comp, ts, bits);
    Pass(bits, Srl.Encode(SrlItems(slots, deltas, 0), 8, srlPad), RawBits(slots, deltas, 0, rawPad))
  }

  lemma DeltaOfNat(t: nat, b: nat, b': nat)
    requires 1 <= b' <= b
    ensures 0 <= Shr(t, b' - 1) - Shl(Shr(t, b - 1), b - b') < Pow2(b - b')
  {
    hide Shr, Shl, Pow2;
    DeltaOfInt(t, b, b');
  }

  lemma DeltaOfInt(t: int, b: nat, b': nat)
    requires 1 <= b' <= b
    ensures 0 <= Shr(t, b' - 1) - Shl(Shr(t, b - 1), b - b') < Pow2(b - b')
  {
    hide Shr, Shl, Pow2;
    var v, n := Shr(t, b' - 1), b - b';
    assert b - 1 == (b' - 1) + n;
    ShrShr(t, b' - 1, n);
    SplitLow(v, n);
  }

  lemma DeltaIsSendable(sl: Slot, t: int, b: nat, b': nat)
    requires 1 <= b' <= b <= b' + 15 && sl.numBits == b - b'
    requires sl.nonLl ==> Sgn(sl.coef.sign) == Sgn(KnownAt(t, sl.nonLl, b))
    ensures Sendable(sl, KnownAt(t, sl.nonLl, b') - Shl(KnownAt(t, sl.nonLl, b), b - b'))
  {
    hide Shr, Shl, Pow2;
    if sl.nonLl && t < 0 {
      DeltaOfNat(-t, b, b');
      ShlAdd(Shr(-t, b - 1), 0, b - b');
    } else {
      DeltaOfInt(t, b, b');
    }
  }

  /** After the sender's pass the component shows its coefficients at the new bit positions. */
  lemma SenderPassShows(comp: Component, ts: seq<int>, bits: seq<nat>, srlPad: nat, rawPad: nat)
    requires Valid(comp) && Legal(comp, bits) && |ts| == |bits|
    requires AllExact(comp, Known(ts, comp.bits, comp.ll))
    ensures AllExact(Apply(comp, SenderPass(comp, ts, bits, srlPad, rawPad)), Known(ts, bits, comp.ll))
  {
    hide Input, Refined, Sendable, StreamsAt, Shl, KnownAt, Upgrade;
    var slots, deltas := Slots(comp, bits), Deltas(comp, ts, bits);
    forall i | 0 <= i < |slots|
      ensures Sendable(slots[i], deltas[i])
      ensures Exact(Refined(slots[i], deltas[i]), i < comp.ll, bits[i], KnownAt(ts[i], i < comp.ll, bits[i]))
    {
      assert Exact(comp.coefs[i], i < comp.ll, comp.bits[i], KnownAt(ts[i], i < comp.ll, comp.bits[i]));
      DeltaIsSendable(slots[i], ts[i], comp.bits[i], bits[i]);
      RefineExact(slots[i], comp.bits[i], KnownAt(ts[i], i < comp.ll, comp.bits[i]), deltas[i]);
    }
    UpgradeRoundTrip(slots, deltas, srlPad, rawPad);
  }

  /** One step of the sender's plan: bit positions and the padding of its two streams. */
  datatype Step = Step(bits: seq<nat>, srlPad: nat, rawPad: nat)

  predicate LegalPlan(comp: Component, ts: seq<int>, plan: seq<Step>)
    decreases |plan|
  {
    |ts| == |comp.coefs| &&
    (plan == [] ||
     (Legal(comp, plan[0].bits) &&
      LegalPlan(Apply(comp, SenderPass(comp, ts, plan[0].bits, plan[0].srlPad, plan[0].rawPad)), ts, plan[1..])))
  }

  /** The component after the client has applied every pass of the sender's plan. */
  function Refine(comp: Component, ts: seq<int>, plan: seq<Step>): Component
    requires LegalPlan(comp, ts, plan)
    decreases |plan|
  {
    if plan == [] then comp
    else Refine(Apply(comp, SenderPass(comp, ts, plan[0].bits, plan[0].srlPad, plan[0].rawPad)), ts, plan[1..])
  }

  /**
   Progressive refinement loses nothing: after any plan the component shows the sender's
   coefficients at its bit positions; where the position is one, the coefficient itself.
   */
  lemma {:induction false} RefinementIsLossless(comp: Component, ts: seq<int>, plan: seq<Step>)
    requires Valid(comp) && LegalPlan(comp, ts, plan)
    requires AllExact(comp, Known(ts, comp.bits, comp.ll))
    ensures var r := Refine(comp, ts, plan);
            Valid(r) && |r.bits| == |ts| && AllExact(r, Known(ts, r.bits, comp.ll)) &&
            forall i :: 0 <= i < |ts| && r.bits[i] == 1 ==> r.coefs[i].current == Wrap16(ts[i])
    decreases |plan|
  {
    hide SenderPass, KnownAt;
    if plan == [] {
      forall i | 0 <= i < |ts| && comp.bits[i] == 1
        ensures comp.coefs[i].current == Wrap16(ts[i])
      {
        KnownAtOne(ts[i], i < comp.ll);
        assert Exact(comp.coefs[i], i < comp.ll, comp.bits[i], KnownAt(ts[i], i < comp.ll, comp.bits[i]));
      }
    } else {
      var pass := SenderPass(comp, ts, plan[0].bits, plan[0].srlPad, plan[0].rawPad);
      SenderPassShows(comp, ts, plan[0].bits, plan[0].srlPad, plan[0].rawPad);
      PassBits(comp, ts, plan[0]);
      RefinementIsLossless(Apply(comp, pass), ts, plan[1..]);
    }
  }

  lemma PassBits(comp: Component, ts: seq<int>, step: Step)
    requires Legal(comp, step.bits) && |ts| == |step.bits|
    ensures SenderPass(comp, ts, step.bits, step.srlPad, step.rawPad).bits == step.bits
  {
  }

  lemma KnownAtOne(t: int, nonLl: bool)
    ensures KnownAt(t, nonLl, 1) == t
  {
  }
}
