/**
 RLGR1, the entropy code of section 3.1.8.1.7.3 of MS-RDPRFX: what the client's decoder
 computes, the sender's encoder, and the proof that the one inverts the other.
 */
module Rlgr {
  import opened Machine
  import opened Bits
  import opened AdaptiveRun

  /** The two adaptive parameters; the code keeps k = kp / 8 and kr = krp / 8 beside them. */
  datatype Params = Params(kp: Kp, krp: Kp)

  const INITIAL := Params(8, 8)

  /** One decoded code word: some zeros, then a value. */
  datatype Symbol = Symbol(zeros: nat, value: I16, params: Params, rest: Stream)

  function NextKrp(krp: Kp, vk: nat): Kp {
    if vk == 0 then Shrink(krp, 2) else if vk == 1 then krp else Grow(krp, vk)
  }

  function GolombRice(s: Stream, krp: Kp): (r: Option<(nat, Kp, Stream)>)
    ensures r.Some? ==> Length(r.value.2) < Length(s)
  {
    var vk := RunLength(s, true);
    if vk == Length(s) then
      None
    else
      var t, kr := Skip(s, vk + 1), krp / 8;
      if Length(t) < kr then
        None
      else
        var (low, rest) := GetBits(t, kr, 0);
        GetBitsLength(t, kr, 0);
        Some((low + Shl(vk, kr), NextKrp(krp, vk), rest))
  }

  /**
   Slice lengths travel in sixteen bits; on such slices neither a Golomb-Rice code nor a run
   of zeros outgrows the 32 bits the client computes it in.
   */
  lemma CodeFits(s: Stream, p: Params)
    requires Length(s) <= 8 * 0xFFFF
    ensures GolombRice(s, p.krp).Some? ==> GolombRice(s, p.krp).value.0 < 0x1_0000_0000
    ensures DecodeRun(s, p.kp).Some? ==> DecodeRun(s, p.kp).value.0 < 0x1_0000_0000
  {
    hide *;
    GolombRiceFits(s, p.krp);
    RunFits(s, p.kp);
  }

  lemma GolombRiceFits(s: Stream, krp: Kp)
    ensures GolombRice(s, krp).Some? ==> GolombRice(s, krp).value.0 <= 1024 * Length(s) + 1024
  {
    hide Pow2, RunLength, Skip, Shl;
    var vk, kr := RunLength(s, true), krp / 8;
    Pow2OfK(krp);
    ShlByK(vk, krp);
    if vk < Length(s) && kr <= Length(s) - vk - 1 {
      GetBitsBelow(Skip(s, vk + 1), kr);
    }
  }

  lemma ShlByK(v: nat, kp: Kp)
    ensures Shl(v, kp / 8) <= 1024 * v
  {
    ShlMono(v, kp / 8, 10);
    ShlIs(v, 10);
    Pow2Values();
  }

  lemma {:induction false} ShlMono(v: nat, a: nat, b: nat)
    requires a <= b
    ensures Shl(v, a) <= Shl(v, b)
    decreases b
  {
    if a < b {
      ShlMono(v, a, b - 1);
    }
  }

  lemma RunFits(s: Stream, kp: Kp)
    ensures DecodeRun(s, kp).Some? ==> DecodeRun(s, kp).value.0 <= 1024 * Length(s) + 1024
  {
    hide Pow2, RunLength, Skip, RunZeros;
    var n := RunLength(s, false);
    RunZerosBound(kp, n);
    var kp' := GrowRuns(kp, n);
    Pow2OfK(kp');
    if n < Length(s) && kp' / 8 <= Length(s) - n - 1 {
      GetBitsBelow(Skip(s, n + 1), kp' / 8);
    }
  }

  lemma Pow2OfK(kp: Kp)
    ensures Pow2(kp / 8) <= 1024
  {
    Pow2Mono(kp / 8, 10);
    Pow2Values();
  }

  lemma GetBitsBelow(s: Stream, n: nat)
    requires n <= Length(s)
    ensures GetBits(s, n, 0).0 < Pow2(n)
  {
    GetBitsLength(s, n, 0);
    GetBitsZBound(s, n);
  }

  lemma {:induction false} RunZerosBound(kp: Kp, n: nat)
    ensures RunZeros(kp, n) <= 1024 * n
    decreases n
  {
    if n > 0 {
      Pow2OfK(kp);
      RunZerosBound(Grow(kp, 4), n - 1);
    }
  }

  /** Run-length mode: a run of zeros, a sign and a magnitude that is at least one. */
  function RunSymbol(s: Stream, p: Params): (r: Option<Symbol>)
    ensures r.Some? ==> Length(r.value.rest) < Length(s)
  {
    match DecodeRun(s, p.kp)
    case None => None
    case Some((zeros, kp, u)) =>
      if u == End then
        None
      else
        match GolombRice(u.next, p.krp)
        case None => None
        case Some((code, krp, rest)) =>
          Some(Symbol(zeros, Wrap16(if u.head then -(code + 1) else code + 1), Params(Shrink(kp, 6), krp), rest))
  }

  function Unfold(code: nat): int {
    if code % 2 == 1 then -((code + 1) / 2) else code / 2
  }

  /** Golomb-Rice mode: one coefficient, its sign folded into the low bit. */
  function GolombSymbol(s: Stream, p: Params): (r: Option<Symbol>)
    ensures r.Some? ==> Length(r.value.rest) < Length(s)
  {
    match GolombRice(s, p.krp)
    case None => None
    case Some((code, krp, rest)) =>
      var kp := if code == 0 then Grow(p.kp, 3) else Shrink(p.kp, 3);
      Some(Symbol(0, Wrap16(Unfold(code)), Params(kp, krp), rest))
  }

  function NextSymbol(s: Stream, p: Params): (r: Option<Symbol>)
    ensures r.Some? ==> Length(r.value.rest) < Length(s)
  {
    if p.kp / 8 != 0 then RunSymbol(s, p) else GolombSymbol(s, p)
  }

  function ZeroCoefficients(n: nat): (r: seq<I16>)
    ensures |r| == n
  {
    seq(n, i => 0)
  }

  /** What one code word contributes when `room` coefficients are still missing. */
  function Clip(sym: Symbol, room: nat): (r: seq<I16>)
    ensures |r| == Min(sym.zeros + 1, room)
  {
    if sym.zeros >= room then ZeroCoefficients(room) else ZeroCoefficients(sym.zeros) + [sym.value]
  }

  /** The coefficients the client decodes from a stream; it never produces more than `room`. */
  function Decode(s: Stream, p: Params, room: nat): (r: seq<I16>)
    ensures |r| <= room
    decreases Length(s)
  {
    if s == End || room == 0 then
      []
    else
      match NextSymbol(s, p)
      case None => []
      case Some(sym) =>
        var now := Clip(sym, room);
        now + Decode(sym.rest, sym.params, room - |now|)
  }

  function Padded(xs: seq<I16>, n: nat): (r: seq<I16>)
    requires |xs| <= n
    ensures |r| == n
  {
    xs + ZeroCoefficients(n - |xs|)
  }

  // ---------- The sender ----------

  function LeadingZeros(xs: seq<I16>): (n: nat)
    ensures n <= |xs|
    ensures n < |xs| ==> xs[n] != 0
  {
    if xs == [] || xs[0] != 0 then 0 else 1 + LeadingZeros(xs[1..])
  }

  function EncodeGolombRice(code: nat, krp: Kp, rest: Stream): Stream {
    Repeat(true, Shr(code, krp / 8), Bit(false, PutBits(code, krp / 8, rest)))
  }

  function KrpAfter(code: nat, krp: Kp): Kp {
    NextKrp(krp, Shr(code, krp / 8))
  }

  function Fold(x: int): nat {
    if x < 0 then 2 * -x - 1 else 2 * x
  }

  function ParamsAfterRun(z: nat, code: nat, p: Params): Params {
    Params(Shrink(KpAfterRun(z, p.kp), 6), KrpAfter(code, p.krp))
  }

  function ParamsAfterGolomb(code: nat, p: Params): Params {
    Params(if code == 0 then Grow(p.kp, 3) else Shrink(p.kp, 3), KrpAfter(code, p.krp))
  }

  /**
   The encoder; it stops after the last coefficient that is not zero and ends the stream with
   `pad` zero bits.
   */
  function Encode(xs: seq<I16>, p: Params, pad: nat): Stream
    decreases |xs|
  {
    var z := LeadingZeros(xs);
    if z == |xs| then
      Zeros(pad)
    else if p.kp / 8 != 0 then
      var code := Abs(xs[z]) - 1;
      var rest := Encode(xs[z + 1..], ParamsAfterRun(z, code, p), pad);
      EncodeRun(z, p.kp, Bit(xs[z] < 0, EncodeGolombRice(code, p.krp, rest)))
    else
      var code := Fold(xs[0]);
      EncodeGolombRice(code, p.krp, Encode(xs[1..], ParamsAfterGolomb(code, p), pad))
  }

  // ---------- The receiver inverts the sender ----------

  lemma GolombRiceRoundTrip(code: nat, krp: Kp, rest: Stream)
    ensures GolombRice(EncodeGolombRice(code, krp, rest), krp) == Some((code, KrpAfter(code, krp), rest))
  {
    var kr := krp / 8;
    var vk, t := Shr(code, kr), PutBits(code, kr, rest);
    var s := Repeat(true, vk, Bit(false, t));
    RunLengthRepeat(true, vk, Bit(false, t));
    SkipOneMore(s, vk);
    GetPut(code, kr, rest);
    SplitLow(code, kr);
  }

  lemma RunSymbolRoundTrip(z: nat, x: I16, p: Params, rest: Stream)
    requires x != 0
    ensures var code := Abs(x) - 1;
            RunSymbol(EncodeRun(z, p.kp, Bit(x < 0, EncodeGolombRice(code, p.krp, rest))), p)
            == Some(Symbol(z, x, ParamsAfterRun(z, code, p), rest))
  {
    hide DecodeRun, GolombRice, EncodeRun, EncodeGolombRice, KpAfterRun, KrpAfter;
    var code := Abs(x) - 1;
    var u := Bit(x < 0, EncodeGolombRice(code, p.krp, rest));
    RunRoundTrip(z, p.kp, u);
    GolombRiceRoundTrip(code, p.krp, rest);
  }

  lemma GolombSymbolRoundTrip(x: I16, p: Params, rest: Stream)
    ensures var code := Fold(x);
            GolombSymbol(EncodeGolombRice(code, p.krp, rest), p)
            == Some(Symbol(0, x, ParamsAfterGolomb(code, p), rest))
  {
    hide GolombRice, EncodeGolombRice, KrpAfter;
    GolombRiceRoundTrip(Fold(x), p.krp, rest);
  }

  lemma FirstSymbol(xs: seq<I16>, p: Params, pad: nat) returns (sym: Symbol)
    requires LeadingZeros(xs) < |xs|
    ensures NextSymbol(Encode(xs, p, pad), p) == Some(sym)
    ensures sym.zeros == if p.kp / 8 != 0 then LeadingZeros(xs) else 0
    ensures sym.value == xs[sym.zeros]
    ensures sym.rest == Encode(xs[sym.zeros + 1..], sym.params, pad)
  {
    hide RunSymbol, GolombSymbol, EncodeRun, EncodeGolombRice, ParamsAfterRun, ParamsAfterGolomb;
    if p.kp / 8 != 0 {
      var z := LeadingZeros(xs);
      var code := Abs(xs[z]) - 1;
      var p' := ParamsAfterRun(z, code, p);
      sym := Symbol(z, xs[z], p', Encode(xs[z + 1..], p', pad));
      RunSymbolRoundTrip(z, xs[z], p, sym.rest);
    } else {
      var p' := ParamsAfterGolomb(Fold(xs[0]), p);
      sym := Symbol(0, xs[0], p', Encode(xs[1..], p', pad));
      GolombSymbolRoundTrip(xs[0], p, sym.rest);
    }
  }

  lemma PaddingSymbol(pad: nat, p: Params)
    requires pad > 0
    ensures var r := NextSymbol(Zeros(pad), p);
            r.None? || (r.value.zeros == 0 && r.value.value == 0 &&
                        exists less :: 0 <= less < pad && r.value.rest == Zeros(less))
  {
    ZerosLength(pad);
    if p.kp / 8 == 0 {
      var t, kr := Zeros(pad - 1), p.krp / 8;
      ZerosLength(pad - 1);
      assert RunLength(Zeros(pad), true) == 0;
      assert Skip(Zeros(pad), 1) == t;
      if kr <= pad - 1 {
        GetZeros(kr, pad - 1 - kr);
      }
    }
  }

  /** Padding decodes to nothing but zeros, in either mode. */
  lemma {:induction false} PaddingIsZero(pad: nat, p: Params, room: nat)
    ensures var r := Decode(Zeros(pad), p, room); r == ZeroCoefficients(|r|)
    decreases pad
  {
    hide NextSymbol;
    if pad > 0 && room > 0 {
      PaddingSymbol(pad, p);
      var r := NextSymbol(Zeros(pad), p);
      if r.Some? {
        var less :| 0 <= less < pad && r.value.rest == Zeros(less);
        PaddingIsZero(less, r.value.params, room - 1);
        assert Clip(r.value, room) == ZeroCoefficients(1);
      }
    }
  }

  lemma {:induction false} SplitLeadingZeros(xs: seq<I16>)
    ensures var z := LeadingZeros(xs); xs[..z] == ZeroCoefficients(z)
  {
    if xs != [] && xs[0] == 0 {
      SplitLeadingZeros(xs[1..]);
      var z := LeadingZeros(xs[1..]);
      assert xs[..z + 1] == [xs[0]] + xs[1..][..z];
    }
  }

  lemma NothingToEncode(xs: seq<I16>, p: Params, pad: nat)
    requires LeadingZeros(xs) == |xs|
    ensures Padded(Decode(Encode(xs, p, pad), p, |xs|), |xs|) == xs
  {
    hide NextSymbol, Decode;
    SplitLeadingZeros(xs);
    assert xs == xs[..|xs|];
    PaddingIsZero(pad, p, |xs|);
  }

  /** Every coefficient string survives encoding and decoding, whatever the padding. */
  lemma {:induction false} DecodeEncode(xs: seq<I16>, p: Params, pad: nat)
    ensures Padded(Decode(Encode(xs, p, pad), p, |xs|), |xs|) == xs
    decreases |xs|
  {
    hide NextSymbol, Decode, Encode, Padded;
    if LeadingZeros(xs) == |xs| {
      NothingToEncode(xs, p, pad);
    } else {
      var sym := FirstSymbol(xs, p, pad);
      DecodeEncode(xs[sym.zeros + 1..], sym.params, pad);
      SplitLeadingZeros(xs);
      DecodeStep(Encode(xs, p, pad), p, sym, xs);
    }
  }

  lemma DecodeStep(s: Stream, p: Params, sym: Symbol, xs: seq<I16>)
    requires NextSymbol(s, p) == Some(sym)
    requires sym.zeros < |xs| && xs[..sym.zeros] == ZeroCoefficients(sym.zeros) && sym.value == xs[sym.zeros]
    requires Padded(Decode(sym.rest, sym.params, |xs| - sym.zeros - 1), |xs| - sym.zeros - 1) == xs[sym.zeros + 1..]
    ensures Padded(Decode(s, p, |xs|), |xs|) == xs
  {
    hide NextSymbol, Padded;
    assert Clip(sym, |xs|) == xs[..sym.zeros + 1];
    PaddedSplit(xs, sym.zeros + 1, Decode(sym.rest, sym.params, |xs| - sym.zeros - 1));
  }

  lemma PaddedSplit(xs: seq<I16>, k: nat, more: seq<I16>)
    requires k <= |xs| && |more| <= |xs| - k && Padded(more, |xs| - k) == xs[k..]
    ensures Padded(xs[..k] + more, |xs|) == xs
  {
    var pad := ZeroCoefficients(|xs| - k - |more|);
    assert (xs[..k] + more) + pad == xs[..k] + (more + pad);
  }

  /** The coefficients of a byte string, zeros standing in for what it does not cover. */
  function Coefficients(data: seq<Byte>, n: nat): (r: seq<I16>)
    ensures |r| == n
  {
    Padded(Decode(StreamOf(data, 0), INITIAL, n), n)
  }

  lemma {:induction false} AppendRun(z: nat, kp: Kp, rest: Stream, zeros: nat)
    ensures Append(EncodeRun(z, kp, rest), zeros) == EncodeRun(z, kp, Append(rest, zeros))
    decreases z
  {
    if z >= Pow2(kp / 8) {
      AppendRun(z - Pow2(kp / 8), Grow(kp, 4), rest, zeros);
    } else {
      AppendPutBits(z, kp / 8, rest, zeros);
    }
  }

  lemma AppendGolombRice(code: nat, krp: Kp, rest: Stream, zeros: nat)
    ensures Append(EncodeGolombRice(code, krp, rest), zeros) == EncodeGolombRice(code, krp, Append(rest, zeros))
  {
    AppendRepeat(true, Shr(code, krp / 8), Bit(false, PutBits(code, krp / 8, rest)), zeros);
    AppendPutBits(code, krp / 8, rest, zeros);
  }

  /** Filling up the last byte is the same as asking the encoder for more padding. */
  lemma {:induction false} AppendIsPadding(xs: seq<I16>, p: Params, pad: nat, zeros: nat)
    ensures Append(Encode(xs, p, pad), zeros) == Encode(xs, p, pad + zeros)
    decreases |xs|
  {
    hide EncodeRun, EncodeGolombRice, ParamsAfterRun, ParamsAfterGolomb;
    var z := LeadingZeros(xs);
    if z == |xs| {
      AppendZeros(pad, zeros);
    } else if p.kp / 8 != 0 {
      var code := Abs(xs[z]) - 1;
      var p' := ParamsAfterRun(z, code, p);
      var rest := Encode(xs[z + 1..], p', pad);
      AppendIsPadding(xs[z + 1..], p', pad, zeros);
      AppendRun(z, p.kp, Bit(xs[z] < 0, EncodeGolombRice(code, p.krp, rest)), zeros);
      AppendGolombRice(code, p.krp, rest, zeros);
    } else {
      var code := Fold(xs[0]);
      var p' := ParamsAfterGolomb(code, p);
      AppendIsPadding(xs[1..], p', pad, zeros);
      AppendGolombRice(code, p.krp, Encode(xs[1..], p', pad), zeros);
    }
  }

  /** Every block of coefficients survives encoding, packing into whole bytes and decoding. */
  lemma RoundTrip(block: seq<I16>)
    ensures Coefficients(Pack(Encode(block, INITIAL, 0)), |block|) == block
  {
    hide *;
    var code := Encode(block, INITIAL, 0);
    var pad := PadLength(Length(code));
    StreamOfPack(code);
    AppendIsPadding(block, INITIAL, 0, pad);
    assert Append(code, pad) == Encode(block, INITIAL, pad);
    DecodeEncode(block, INITIAL, pad);
    CoefficientsOf(Pack(code), Append(code, pad), |block|);
  }

  lemma CoefficientsOf(data: seq<Byte>, s: Stream, n: nat)
    requires StreamOf(data, 0) == s
    ensures Coefficients(data, n) == Padded(Decode(s, INITIAL, n), n)
  {
  }
}
