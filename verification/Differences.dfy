/** Difference tiles: a component that lies over another one, and how it is refined without disturbing what is beneath. */
module Differences {
  import opened Machine
  import opened Bits
  import opened Refinement
  import opened BandLayout
  import opened Quants
  import opened Planes
  import Rlgr
  import BP = BitPlanes

  /** The plane that shows `p` added to what lies under it; signs and bit positions are those of `p`. */
  function Over(under: seq<I16>, p: Plane): (r: Plane)
    requires p.Valid() && |under| == COEFFICIENTS
    ensures r.Valid() && r.sign == p.sign && r.bits == p.bits
  {
    p.(current := Summed(p.current, under))
  }

  /** A difference tile lays its own plane over the stored coefficients. */
  lemma DifferedIsOver(state: Plane, delta: Plane)
    requires state.Valid() && delta.Valid()
    ensures Differed(state, delta) == Over(state.current, delta)
  {
  }

  function Nothing(): (u: seq<I16>)
    ensures |u| == COEFFICIENTS
  {
    seq(COEFFICIENTS, i => 0)
  }

  lemma SummedWithNothing(s: seq<I16>)
    requires |s| == COEFFICIENTS
    ensures Summed(s, Nothing()) == s
  {
    hide Wrap16;
    forall i | 0 <= i < COEFFICIENTS
      ensures Summed(s, Nothing())[i] == s[i]
    {
      Wrap16Same(s[i]);
    }
  }

  lemma OverNothing(p: Plane)
    requires p.Valid()
    ensures Over(Nothing(), p) == p
  {
    SummedWithNothing(p.current);
  }

  // ---------- Refinement looks at signs, never at coefficients ----------

  /** The slots differ in their coefficients at most. */
  ghost predicate SameButCurrent(a: seq<Slot>, b: seq<Slot>) {
    |a| == |b| &&
    forall i :: 0 <= i < |a| ==>
      a[i].coef.sign == b[i].coef.sign && a[i].shift == b[i].shift && a[i].numBits == b[i].numBits && a[i].nonLl == b[i].nonLl
  }

  lemma {:induction false} StreamsAgree(a: seq<Slot>, b: seq<Slot>, st: Streams, i: nat)
    requires SameButCurrent(a, b) && i <= |a|
    ensures StreamsAt(a, st, i) == StreamsAt(b, st, i)
    decreases i
  {
    if i > 0 {
      StreamsAgree(a, b, st, i - 1);
      InputAgrees(a[i - 1], b[i - 1], StreamsAt(a, st, i - 1));
    }
  }

  lemma InputAgrees(a: Slot, b: Slot, st: Streams)
    requires a.coef.sign == b.coef.sign && a.shift == b.shift && a.numBits == b.numBits && a.nonLl == b.nonLl
    ensures Input(a, st) == Input(b, st)
  {
  }

  lemma AddedLater(c: I16, u: I16, w: I16)
    ensures Wrap16(Wrap16(c as int + u) + w as int) == Wrap16(Wrap16(c as int + w) + u as int)
  {
    hide Wrap16;
    Wrap16Add(w as int, c as int + u);
    Wrap16Add(u as int, c as int + w);
  }

  lemma RefinedOver(a: Slot, b: Slot, u: I16, input: int)
    requires a.coef.sign == b.coef.sign && a.shift == b.shift && a.numBits == b.numBits && a.nonLl == b.nonLl
    requires a.coef.current == Wrap16(b.coef.current as int + u)
    ensures Refined(a, input).sign == Refined(b, input).sign
    ensures Refined(a, input).current == Wrap16(Refined(b, input).current as int + u)
  {
    hide Wrap16, Shl;
    AddedLater(b.coef.current, u, Wrap16(Shl(input, a.shift)));
  }

  /** An upgrade of a plane over another one refines the upper one alone. */
  lemma UpgradedOver(under: seq<I16>, p: Plane, srl: seq<Byte>, raw: seq<Byte>, bits: Quant, shifts: Quant, numBits: Quant, extrapolate: bool)
    requires p.Valid() && |under| == COEFFICIENTS
    ensures Upgraded(Over(under, p), srl, raw, bits, shifts, numBits, extrapolate)
         == Over(under, Upgraded(p, srl, raw, bits, shifts, numBits, extrapolate))
  {
    hide Wrap16, Shl, BandOf, StreamOf, Refined, StreamsAt, Input;
    var a := ComponentSlots(Coefs(Over(under, p).current, p.sign), shifts, numBits, extrapolate);
    var b := ComponentSlots(Coefs(p.current, p.sign), shifts, numBits, extrapolate);
    var st := Begin(StreamOf(srl, 0), StreamOf(raw, 0));
    assert SameButCurrent(a, b);
    forall i | 0 <= i < COEFFICIENTS
      ensures Upgrade(a, st)[i].sign == Upgrade(b, st)[i].sign
      ensures Upgrade(a, st)[i].current == Wrap16(Upgrade(b, st)[i].current as int + under[i])
    {
      StreamsAgree(a, b, st, i);
      InputAgrees(a[i], b[i], StreamsAt(b, st, i));
      RefinedOver(a[i], b[i], under[i], InputAt(b, st, i));
    }
    assert Signs(Upgrade(a, st)) == Signs(Upgrade(b, st));
    assert Currents(Upgrade(a, st)) == Summed(Currents(Upgrade(b, st)), under);
  }

  // ---------- Runs ----------

  lemma {:induction false} StepsOver(under: seq<I16>, p: Plane, steps: seq<Step>, extrapolate: bool)
    requires p.Valid() && |under| == COEFFICIENTS && LegalSteps(p, steps, extrapolate)
    ensures LegalSteps(Over(under, p), steps, extrapolate)
    ensures ApplyAll(Over(under, p), steps, extrapolate) == Over(under, ApplyAll(p, steps, extrapolate))
    decreases |steps|
  {
    hide Upgraded, Over;
    if steps != [] {
      var s := steps[0];
      UpgradedOver(under, p, s.srl, s.raw, s.bits, Sub1(s.bits).value, CheckedSub(p.bits, s.bits).value, extrapolate);
      StepsOver(under, Apply(p, s, extrapolate), steps[1..], extrapolate);
    }
  }

  /**
   After a difference tile and any run of upgrades every coefficient is the one stored before plus,
   modulo 2^16, the number that the difference's first pass and all later bits spell.
   */
  lemma DifferenceIsExact(state: Plane, data: seq<Byte>, bits: Quant, steps: seq<Step>, extrapolate: bool)
    requires state.Valid() && Positive(bits) && LegalSteps(FirstPlane(data, bits, extrapolate), steps, extrapolate)
    ensures var p := FirstPlane(data, bits, extrapolate);
            var own := ApplyAll(p, steps, extrapolate);
            var first, passes := ComponentOf(p, extrapolate), Passes(steps, extrapolate);
            var base := Base(Rlgr.Coefficients(data, COEFFICIENTS), extrapolate);
            && LegalSteps(Differed(state, p), steps, extrapolate)
            && ApplyAll(Differed(state, p), steps, extrapolate) == Over(state.current, own)
            && BP.LegalRun(first, passes) && BP.Valid(ComponentOf(own, extrapolate))
            && BP.AllExact(ComponentOf(own, extrapolate), BP.Learned(first, base, passes))
  {
    hide FirstPlane, Differed, ApplyAll, LegalSteps, ComponentOf, Passes, Base, Over, Rlgr.Coefficients,
         BP.LegalRun, BP.Valid, BP.AllExact, BP.Learned;
    var p := FirstPlane(data, bits, extrapolate);
    DifferedIsOver(state, p);
    StepsOver(state.current, p, steps, extrapolate);
    TileIsExact(data, bits, steps, extrapolate);
  }
}
