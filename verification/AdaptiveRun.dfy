/**
 The adaptive code for runs of zeros that RLGR1 and SRL share: every `0` bit stands for
 2^(kp/8) zeros and makes `kp` grow; a `1` bit ends the run, its remainder following in
 kp/8 bits.
 */
module AdaptiveRun {
  import opened Machine
  import opened Bits

  /** An adaptive parameter; RLGR_KPMAX and SRL_KP_MAX are both 80. */
  type Kp = x: int | 0 <= x <= 80

  function Grow(kp: Kp, step: nat): Kp {
    Min(kp + step, 80)
  }

  function Shrink(kp: Kp, step: nat): Kp {
    Max(kp - step, 0)
  }

  /** `kp` after `n` full runs. */
  function GrowRuns(kp: Kp, n: nat): Kp
    decreases n
  {
    if n == 0 then kp else GrowRuns(Grow(kp, 4), n - 1)
  }

  /** The zeros that `n` full runs stand for. */
  function RunZeros(kp: Kp, n: nat): nat
    decreases n
  {
    if n == 0 then 0 else Pow2(kp / 8) + RunZeros(Grow(kp, 4), n - 1)
  }

  /** The sender's code for a run of `zeros` zeros. */
  function EncodeRun(zeros: nat, kp: Kp, rest: Stream): Stream
    decreases zeros
  {
    if zeros >= Pow2(kp / 8) then
      Bit(false, EncodeRun(zeros - Pow2(kp / 8), Grow(kp, 4), rest))
    else
      Bit(true, PutBits(zeros, kp / 8, rest))
  }

  /** `kp` once the sender has coded a run of `zeros` zeros. */
  function KpAfterRun(zeros: nat, kp: Kp): Kp
    decreases zeros
  {
    if zeros >= Pow2(kp / 8) then KpAfterRun(zeros - Pow2(kp / 8), Grow(kp, 4)) else kp
  }

  /** The receiver's reading of a coded run: its length, the new `kp` and the bits left over. */
  function DecodeRun(s: Stream, kp: Kp): (r: Option<(nat, Kp, Stream)>)
    ensures r.Some? ==> Length(r.value.2) < Length(s)
  {
    var vk := RunLength(s, false);
    if vk == Length(s) then
      None
    else
      var t, kp' := Skip(s, vk + 1), GrowRuns(kp, vk);
      if Length(t) < kp' / 8 then
        None
      else
        var (low, rest) := GetBits(t, kp' / 8, 0);
        GetBitsLength(t, kp' / 8, 0);
        Some((RunZeros(kp, vk) + low, kp', rest))
  }

  /** Reading a coded run returns its length and stops exactly behind its code. */
  lemma {:induction false} RunRoundTrip(zeros: nat, kp: Kp, rest: Stream)
    ensures DecodeRun(EncodeRun(zeros, kp, rest), kp) == Some((zeros, KpAfterRun(zeros, kp), rest))
    decreases zeros
  {
    hide DecodeRun;
    if zeros >= Pow2(kp / 8) {
      RunRoundTrip(zeros - Pow2(kp / 8), Grow(kp, 4), rest);
      FullRun(EncodeRun(zeros - Pow2(kp / 8), Grow(kp, 4), rest), kp);
    } else {
      LowIsAll(zeros, kp / 8);
      GetPut(zeros, kp / 8, rest);
      LastRun(PutBits(zeros, kp / 8, rest), kp);
    }
  }

  lemma FullRun(s: Stream, kp: Kp)
    requires DecodeRun(s, Grow(kp, 4)).Some?
    ensures var (n, kp', rest) := DecodeRun(s, Grow(kp, 4)).value;
            DecodeRun(Bit(false, s), kp) == Some((Pow2(kp / 8) + n, kp', rest))
  {
    hide *;
    var vk: nat, next: Kp := RunLength(s, false), Grow(kp, 4);
    DecodeRunIs(s, next, vk);
    OneMoreZero(s, vk);
    OneMoreRun(kp, vk);
    DecodeRunIs(Bit(false, s), kp, vk + 1);
  }

  /** What there is to read after `vk` full runs. */
  lemma DecodeRunIs(s: Stream, kp: Kp, vk: nat)
    requires vk == RunLength(s, false)
    ensures DecodeRun(s, kp).Some? <==> vk < Length(s) && GrowRuns(kp, vk) / 8 <= Length(Skip(s, vk + 1))
    ensures DecodeRun(s, kp).Some? ==>
              var (low, rest) := GetBits(Skip(s, vk + 1), GrowRuns(kp, vk) / 8, 0);
              DecodeRun(s, kp).value == (RunZeros(kp, vk) + low, GrowRuns(kp, vk), rest)
  {
    hide RunLength, Skip, GrowRuns, RunZeros, GetBits;
  }

  lemma OneMoreZero(s: Stream, vk: nat)
    requires vk == RunLength(s, false) < Length(s)
    ensures Length(Bit(false, s)) == Length(s) + 1
    ensures RunLength(Bit(false, s), false) == vk + 1 && Skip(Bit(false, s), vk + 2) == Skip(s, vk + 1)
  {
  }

  lemma OneMoreRun(kp: Kp, vk: nat)
    ensures GrowRuns(kp, vk + 1) == GrowRuns(Grow(kp, 4), vk)
    ensures RunZeros(kp, vk + 1) == Pow2(kp / 8) + RunZeros(Grow(kp, 4), vk)
  {
  }

  lemma LastRun(s: Stream, kp: Kp)
    requires kp / 8 <= Length(s)
    ensures var (n, rest) := GetBits(s, kp / 8, 0);
            DecodeRun(Bit(true, s), kp) == Some((n, kp, rest))
  {
    assert Skip(Bit(true, s), 1) == s;
  }
}
