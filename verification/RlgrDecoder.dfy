/** `rlgr1_decode`: the in-place decoder, proved against the functions of module Rlgr. */
module RlgrDecoder {
  import opened Machine
  import opened Bits
  import opened BitReading
  import opened AdaptiveRun
  import opened Rlgr

  /** The zero run of run-length mode: unary part, then kp / 8 bits. */
  method ReadRun(br: BitReader, kp: Kp) returns (r: Option<(nat, Kp)>)
    requires br.Valid()
    modifies br`bitPos
    ensures br.Valid()
    ensures r.None? <==> DecodeRun(old(br.Rest()), kp).None?
    ensures r.Some? ==> DecodeRun(old(br.Rest()), kp) == Some((r.value.0, r.value.1, br.Rest()))
  {
    hide GetBits, GetBitsZ, RunLength, Skip, StreamOf, Pow2, Shl;
    ghost var s := br.Rest();
    var vk := br.ConsumeRun(false);
    var terminator := br.ReadBit();
    if terminator.None? {
      return None;
    }
    SkipOneMore(s, vk);
    var run, kp' := 0, kp;
    for i := 0 to vk
      invariant RunZeros(kp, vk) == run + RunZeros(kp', vk - i)
      invariant GrowRuns(kp, vk) == GrowRuns(kp', vk - i)
    {
      run := run + Pow2(kp' / 8);
      kp' := Grow(kp', 4);
    }
    if br.Remaining() < kp' / 8 {
      return None;
    }
    GetBitsLength(br.Rest(), kp' / 8, 0);
    var low := br.ReadBits(kp' / 8);
    return Some((run + low, kp'));
  }

  /**
   One Golomb-Rice code and the adapted `krp`. The client joins the two parts by a shift and
   an or in 32 bits, which is the sum below because of Rlgr.CodeFits.
   */
  method ReadGolombRice(br: BitReader, krp: Kp) returns (r: Option<(nat, Kp)>)
    requires br.Valid()
    modifies br`bitPos
    ensures br.Valid()
    ensures r.None? <==> GolombRice(old(br.Rest()), krp).None?
    ensures r.Some? ==> GolombRice(old(br.Rest()), krp) == Some((r.value.0, r.value.1, br.Rest()))
  {
    hide GetBits, GetBitsZ, RunLength, Skip, StreamOf, Pow2, Shl;
    ghost var s := br.Rest();
    var vk := br.ConsumeRun(true);
    var terminator := br.ReadBit();
    if terminator.None? {
      return None;
    }
    SkipOneMore(s, vk);
    var kr := krp / 8;
    if br.Remaining() < kr {
      return None;
    }
    GetBitsLength(br.Rest(), kr, 0);
    var remainder := br.ReadBits(kr);
    return Some((remainder + Shl(vk, kr), NextKrp(krp, vk)));
  }

  /** One code word in run-length mode. */
  method ReadRunSymbol(br: BitReader, p: Params) returns (r: Option<(nat, I16, Params)>)
    requires br.Valid()
    modifies br`bitPos
    ensures br.Valid()
    ensures r.None? <==> RunSymbol(old(br.Rest()), p).None?
    ensures r.Some? ==> RunSymbol(old(br.Rest()), p) == Some(Symbol(r.value.0, r.value.1, r.value.2, br.Rest()))
  {
    hide DecodeRun, GolombRice;
    var run := ReadRun(br, p.kp);
    if run.None? {
      return None;
    }
    var sign := br.ReadBit();
    if sign.None? {
      return None;
    }
    var gr := ReadGolombRice(br, p.krp);
    if gr.None? {
      return None;
    }
    var magnitude: int := gr.value.0 + 1;
    var mag: int := if sign.value then -magnitude else magnitude;
    return Some((run.value.0, Wrap16(mag), Params(Shrink(run.value.1, 6), gr.value.1)));
  }

  /** One code word in Golomb-Rice mode. */
  method ReadGolombSymbol(br: BitReader, p: Params) returns (r: Option<(nat, I16, Params)>)
    requires br.Valid()
    modifies br`bitPos
    ensures br.Valid()
    ensures r.None? <==> GolombSymbol(old(br.Rest()), p).None?
    ensures r.Some? ==> GolombSymbol(old(br.Rest()), p) == Some(Symbol(r.value.0, r.value.1, r.value.2, br.Rest()))
  {
    hide GolombRice;
    var gr := ReadGolombRice(br, p.krp);
    if gr.None? {
      return None;
    }
    var code: int := gr.value.0;
    var mag: int, kp: Kp;
    if code == 0 {
      mag, kp := 0, Grow(p.kp, 3);
    } else {
      kp := Shrink(p.kp, 3);
      mag := if code % 2 == 1 then -((code + 1) / 2) else code / 2;
    }
    return Some((0, Wrap16(mag), Params(kp, gr.value.1)));
  }

  /** Writes `zeros` zeros and then `value`, as far as the buffer reaches. */
  method WriteSymbol(out: array<I16>, at: nat, zeros: nat, value: I16, ghost sym: Symbol) returns (outIdx: nat)
    requires at < out.Length && sym.zeros == zeros && sym.value == value
    modifies out
    ensures at < outIdx <= out.Length
    ensures out[..at] == old(out[..at]) && out[outIdx..] == old(out[outIdx..])
    ensures out[at..outIdx] == Clip(sym, out.Length - at)
  {
    outIdx := at;
    var zerosLeft := zeros;
    while zerosLeft > 0 && outIdx < out.Length
      invariant at <= outIdx <= out.Length && zerosLeft == zeros - (outIdx - at) >= 0
      invariant out[..at] == old(out[..at]) && out[outIdx..] == old(out[outIdx..])
      invariant forall i :: at <= i < outIdx ==> out[i] == 0
      decreases zerosLeft
    {
      out[outIdx] := 0;
      outIdx := outIdx + 1;
      zerosLeft := zerosLeft - 1;
    }
    if outIdx < out.Length {
      out[outIdx] := value;
      outIdx := outIdx + 1;
    }
  }

  /**
   Decodes into `out` and leaves alone what the stream does not cover. `out` ends up holding
   the coefficients that `Decode` finds in the stream, and nothing is written past its end.
   */
  method Rlgr1Decode(data: seq<Byte>, out: array<I16>)
    modifies out
    ensures var d := Decode(StreamOf(data, 0), INITIAL, out.Length);
            out[..] == d + old(out[|d|..])
  {
    var br := new BitReader(data);
    var p, outIdx := INITIAL, 0;
    hide NextSymbol, Clip, StreamOf, Decode, Length;
    while br.Remaining() > 0 && outIdx < out.Length
      invariant br.Valid() && outIdx <= out.Length && fresh(br)
      invariant Decode(StreamOf(data, 0), INITIAL, out.Length)
             == out[..outIdx] + Decode(br.Rest(), p, out.Length - outIdx)
      invariant out[outIdx..] == old(out[outIdx..])
      decreases br.Remaining()
    {
      ghost var s := br.Rest();
      DecodeUnfolds(s, p, out.Length - outIdx);
      var r := ReadSymbol(br, p);
      if r.None? {
        break;
      }
      var next := WriteSymbol(out, outIdx, r.value.0, r.value.1, Symbol(r.value.0, r.value.1, r.value.2, br.Rest()));
      assert out[..next] == out[..outIdx] + out[outIdx..next];
      p, outIdx := r.value.2, next;
    }
    DecodeUnfolds(br.Rest(), p, out.Length - outIdx);
  }

  lemma DecodeUnfolds(s: Stream, p: Params, room: nat)
    ensures Decode(s, p, room) ==
            if Length(s) == 0 || room == 0 then []
            else
              match NextSymbol(s, p)
              case None => []
              case Some(sym) => Clip(sym, room) + Decode(sym.rest, sym.params, room - |Clip(sym, room)|)
  {
    hide NextSymbol, Clip;
  }

  method ReadSymbol(br: BitReader, p: Params) returns (r: Option<(nat, I16, Params)>)
    requires br.Valid()
    modifies br`bitPos
    ensures br.Valid()
    ensures r.None? <==> NextSymbol(old(br.Rest()), p).None?
    ensures r.Some? ==> NextSymbol(old(br.Rest()), p) == Some(Symbol(r.value.0, r.value.1, r.value.2, br.Rest()))
  {
    if p.kp / 8 != 0 {
      r := ReadRunSymbol(br, p);
    } else {
      r := ReadGolombSymbol(br, p);
    }
  }
}
