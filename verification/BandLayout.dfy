/** Where the ten subbands of a tile lie among its 4096 coefficients, in both wavelet layouts. */
module BandLayout {
  import opened Machine
  import opened Refinement

  const COEFFICIENTS := 4096

  /** Where subband `band` begins; HL1, LH1, HH1, HL2, LH2, HH2, HL3, LH3, HH3, LL3. */
  function BandStart(extrapolate: bool, band: nat): (r: nat)
    requires band <= 10
    ensures r <= 4096
  {
    if extrapolate then
      [0, 1023, 2046, 3007, 3279, 3551, 3807, 3879, 3951, 4015, 4096][band]
    else
      [0, 1024, 2048, 3072, 3328, 3584, 3840, 3904, 3968, 4032, 4096][band]
  }

  /** The offsets and lengths of the subbands, as the client tabulates them. */
  function SubbandLayout(extrapolate: bool): (r: seq<(nat, nat)>)
    ensures |r| == 10
  {
    if extrapolate then
      [(0, 1023), (1023, 1023), (2046, 961), (3007, 272), (3279, 272),
       (3551, 256), (3807, 72), (3879, 72), (3951, 64), (4015, 81)]
    else
      [(0, 1024), (1024, 1024), (2048, 1024), (3072, 256), (3328, 256),
       (3584, 256), (3840, 64), (3904, 64), (3968, 64), (4032, 64)]
  }

  /** The table tiles the whole buffer, contiguously and in order. */
  lemma LayoutTiles(extrapolate: bool, band: nat)
    requires band < 10
    ensures SubbandLayout(extrapolate)[band].0 == BandStart(extrapolate, band)
    ensures BandStart(extrapolate, band) + SubbandLayout(extrapolate)[band].1 == BandStart(extrapolate, band + 1)
    ensures BandStart(extrapolate, 0) == 0 && BandStart(extrapolate, 10) == COEFFICIENTS
  {
    assert band == 0 || band == 1 || band == 2 || band == 3 || band == 4 ||
           band == 5 || band == 6 || band == 7 || band == 8 || band == 9;
  }

  lemma {:induction false} BandsAscend(extrapolate: bool, a: nat, b: nat)
    requires a <= b <= 10
    ensures BandStart(extrapolate, a) <= BandStart(extrapolate, b)
    decreases b - a
  {
    if a < b {
      LayoutTiles(extrapolate, a);
      BandsAscend(extrapolate, a + 1, b);
    }
  }

  function BandFrom(extrapolate: bool, i: nat, band: nat): (r: nat)
    requires band < 10 && BandStart(extrapolate, band) <= i < COEFFICIENTS
    ensures band <= r < 10 && BandStart(extrapolate, r) <= i < BandStart(extrapolate, r + 1)
    decreases 10 - band
  {
    if i < BandStart(extrapolate, band + 1) then band else BandFrom(extrapolate, i, band + 1)
  }

  /** The subband that coefficient `i` belongs to. */
  function BandOf(extrapolate: bool, i: nat): (r: nat)
    requires i < COEFFICIENTS
    ensures r < 10 && BandStart(extrapolate, r) <= i < BandStart(extrapolate, r + 1)
  {
    BandFrom(extrapolate, i, 0)
  }

  lemma BandOfIs(extrapolate: bool, band: nat, i: nat)
    requires band < 10 && BandStart(extrapolate, band) <= i < BandStart(extrapolate, band + 1)
    ensures BandOf(extrapolate, i) == band
  {
    var r := BandOf(extrapolate, i);
    if r < band {
      BandsAscend(extrapolate, r + 1, band);
    } else if band < r {
      BandsAscend(extrapolate, band + 1, r);
    }
  }

  /** The slots of one component under per-subband shifts and bit counts. */
  function ComponentSlots(coefs: seq<Coef>, shifts: seq<int>, numBits: seq<int>, extrapolate: bool): (r: seq<Slot>)
    requires |coefs| == COEFFICIENTS && |shifts| == |numBits| == 10
    ensures |r| == COEFFICIENTS
  {
    seq(COEFFICIENTS, i requires 0 <= i < COEFFICIENTS =>
      var band := BandOf(extrapolate, i);
      Slot(coefs[i], Max(shifts[band], 0), Max(numBits[band], 0), band < 9))
  }
}
