/** `progressive.rs`: decoding one component of a tile, and turning a tile's coefficients into pixels. */
module PlaneDecoder {
  import opened Machine
  import opened Bits
  import opened Grid
  import opened Blocks
  import opened Matrices
  import opened Pixels
  import opened Canvas
  import opened Refinement
  import opened BandLayout
  import opened Quants
  import opened Planes
  import opened TileBlocks
  import Rlgr
  import RlgrDecoder
  import UpgradeDecoder
  import WaveletDecoder
  import ExtrapolateDecoder
  import Wavelet
  import Extrapolate

  method ToArray(s: seq<I16>) returns (a: array<I16>)
    ensures fresh(a) && a[..] == s
  {
    a := new I16[|s|](i requires 0 <= i < |s| => s[i]);
  }

  /** Adds up the differences in `buffer[lo..]` in place. */
  method DifferentialDecode(buffer: array<I16>, lo: nat)
    requires lo <= buffer.Length
    modifies buffer
    ensures buffer[..lo] == old(buffer[..lo]) && buffer[lo..] == Differential(old(buffer[lo..]))
  {
    hide Wrap16;
    ghost var was: seq<I16> := buffer[lo..];
    var n := buffer.Length - lo;
    var i: nat := 0;
    while i + 1 < n
      invariant n > 0 ==> i < n
      invariant buffer[..lo] == old(buffer[..lo])
      invariant forall j :: 0 <= j <= i && j < n ==> buffer[lo + j] == Running(was, j)
      invariant forall j :: i < j < n ==> buffer[lo + j] == was[j]
    {
      buffer[lo + i + 1] := Wrap16(buffer[lo + i] as int + buffer[lo + i + 1]);
      i := i + 1;
    }
  }

  /** Shifts the coefficients of one subband into place; a shift that makes no sense is refused. */
  method Dequant(buffer: array<I16>, off: nat, len: nat, shift: int) returns (ok: bool)
    requires off + len <= buffer.Length
    modifies buffer
    ensures ok <==> 0 <= shift <= 30
    ensures ok ==> forall i :: off <= i < off + len ==> buffer[i] == Wrap16(Shl(old(buffer[i]), shift))
    ensures forall i :: 0 <= i < buffer.Length && !(ok && off <= i < off + len) ==> buffer[i] == old(buffer[i])
  {
    hide Wrap16;
    if shift == 0 {
      ZeroShift();
      return true;
    }
    if shift < 0 || shift > 30 {
      return false;
    }
    for i := off to off + len
      invariant forall j :: off <= j < i ==> buffer[j] == Wrap16(Shl(old(buffer[j]), shift))
      invariant forall j :: 0 <= j < buffer.Length && !(off <= j < i) ==> buffer[j] == old(buffer[j])
    {
      buffer[i] := Wrap16(Shl(buffer[i], shift));
    }
    return true;
  }

  lemma ZeroShift()
    ensures forall v: I16 :: Wrap16(Shl(v, 0)) == v
  {
  }

  lemma PaddedWithZeros(data: seq<Byte>, out: seq<I16>, d: seq<I16>)
    requires d == Rlgr.Decode(StreamOf(data, 0), Rlgr.INITIAL, COEFFICIENTS) && |d| <= COEFFICIENTS == |out|
    requires out == d + seq(COEFFICIENTS - |d|, i => 0)
    ensures out == Rlgr.Coefficients(data, COEFFICIENTS)
  {
    hide Rlgr.Decode, StreamOf;
  }

  method DecodeRlgr(data: seq<Byte>) returns (buffer: array<I16>)
    ensures fresh(buffer) && buffer.Length == COEFFICIENTS && buffer[..] == Rlgr.Coefficients(data, COEFFICIENTS)
  {
    hide Rlgr.Decode, StreamOf, Rlgr.Coefficients;
    buffer := new I16[COEFFICIENTS](i => 0);
    ghost var zeros: seq<I16> := buffer[..];
    RlgrDecoder.Rlgr1Decode(data, buffer);
    ghost var d := Rlgr.Decode(StreamOf(data, 0), Rlgr.INITIAL, COEFFICIENTS);
    assert zeros[|d|..] == seq(COEFFICIENTS - |d|, i => 0);
    PaddedWithZeros(data, buffer[..], d);
  }

  /** Entropy decoding, differential decoding of LL3, and dequantization; the signs are taken before the latter two. */
  method DecodeComponentCoeffs(data: seq<Byte>, bits: Quant, shifts: Quant, extrapolate: bool) returns (p: Plane)
    requires (forall i :: 0 <= i < 10 ==> bits[i] <= 30) && Sub1(bits) == Some(shifts)
    ensures p == FirstPlane(data, bits, extrapolate)
  {
    hide Rlgr.Coefficients, Differential, Wrap16, Shl, BandStart, BandOf, SubbandLayout;
    var buffer := DecodeRlgr(data);
    var sign: seq<I16> := buffer[..];
    LayoutTiles(extrapolate, 9);
    DifferentialDecode(buffer, BandStart(extrapolate, 9));
    ghost var base: seq<I16> := buffer[..];
    assert base == Base(sign, extrapolate);
    var layout := SubbandLayout(extrapolate);
    LayoutTiles(extrapolate, 0);
    for band := 0 to 10
      invariant forall i :: 0 <= i < BandStart(extrapolate, band) ==> buffer[i] == Wrap16(Shl(base[i], ShiftAt(bits, extrapolate, i)))
      invariant forall i :: BandStart(extrapolate, band) <= i < COEFFICIENTS ==> buffer[i] == base[i]
    {
      LayoutTiles(extrapolate, band);
      var (off, len) := layout[band];
      forall i | off <= i < off + len
        ensures ShiftAt(bits, extrapolate, i) == shifts[band]
      {
        BandOfIs(extrapolate, band, i);
      }
      var done := Dequant(buffer, off, len, shifts[band]);
      assert done;
    }
    p := Plane(buffer[..], sign, bits);
  }

  /** Adds a delta onto a baseline; both buffers end up holding the sum. */
  method AccumulateDiff(delta: array<I16>, baseline: array<I16>)
    requires delta != baseline && delta.Length == baseline.Length == COEFFICIENTS
    modifies delta, baseline
    ensures delta[..] == baseline[..] == Summed(old(delta[..]), old(baseline[..]))
  {
    hide Wrap16;
    for i := 0 to COEFFICIENTS
      invariant forall j :: 0 <= j < i ==> delta[j] == baseline[j] == Wrap16(old(delta[j]) as int + old(baseline[j]))
      invariant forall j :: i <= j < COEFFICIENTS ==> delta[j] == old(delta[j]) && baseline[j] == old(baseline[j])
    {
      var sum := Wrap16(delta[i] as int + baseline[i]);
      delta[i] := sum;
      baseline[i] := sum;
    }
  }

  method AddDelta(state: Plane, delta: Plane) returns (p: Plane)
    requires state.Valid() && delta.Valid()
    ensures p == Differed(state, delta)
  {
    hide Summed;
    var a := ToArray(delta.current);
    var b := ToArray(state.current);
    AccumulateDiff(a, b);
    p := delta.(current := b[..]);
  }

  method UpgradePlane(p: Plane, s: TileBlocks.Streams, bits: Quant, extrapolate: bool) returns (r: Plane)
    requires p.Valid() && MayUpgrade(p, bits)
    ensures r == UpgradedPlane(p, s, bits, extrapolate)
  {
    hide Upgrade, ComponentSlots, Begin, StreamOf;
    var current := ToArray(p.current);
    var sign := ToArray(p.sign);
    var numBits, shifts := CheckedSub(p.bits, bits).value, Sub1(bits).value;
    UpgradeDecoder.UpgradeComponent(current, sign, s.srl, s.raw, shifts, numBits, extrapolate);
    CoefsBack(current[..], sign[..]);
    r := Plane(current[..], sign[..], bits);
  }

  lemma CoefsBack(current: seq<I16>, sign: seq<I16>)
    requires |current| == |sign|
    ensures Currents(Coefs(current, sign)) == current && Signs(Coefs(current, sign)) == sign
  {
  }

  // ---------- Pixels ----------

  /** The samples of one component, computed in place on a copy of its coefficients. */
  method InverseTransform(current: seq<I16>, extrapolate: bool) returns (plane: array<I16>)
    requires |current| == COEFFICIENTS
    ensures fresh(plane) && plane.Length == COEFFICIENTS && Blocks.Block(plane[..], 0, TILE, 0, TILE) == Samples(current, extrapolate)
  {
    hide Blocks.Block, Wavelet.Picture, Extrapolate.Picture, WaveletDecoder.SubbandsOf, ExtrapolateDecoder.SubbandsOf;
    plane := ToArray(current);
    if extrapolate {
      ExtrapolateDecoder.Idwt3LevelExtrapolate(plane);
    } else {
      WaveletDecoder.Idwt3Level(plane);
    }
  }

  lemma BlockCell(buffer: seq<I16>, y: nat, x: nat)
    requires |buffer| == COEFFICIENTS && y < TILE && x < TILE
    ensures At(0, TILE, y, x) < COEFFICIENTS && Blocks.Block(buffer, 0, TILE, 0, TILE)[y][x] == buffer[At(0, TILE, y, x)]
  {
    hide At;
    AtIs(0, TILE, y, 0);
    AtIs(0, TILE, y, x);
    assert Blocks.Block(buffer, 0, TILE, 0, TILE)[y] == Blocks.RowOf(buffer, 0, TILE, y);
  }

  /** Colour conversion of three planes, sample by sample. */
  method YCbCrPixels(y: array<I16>, cb: array<I16>, cr: array<I16>) returns (out: array<Pixel>)
    requires y.Length == cb.Length == cr.Length == COEFFICIENTS
    ensures fresh(out) && out.Length == COEFFICIENTS
    ensures forall i :: 0 <= i < COEFFICIENTS ==> out[i] == YCbCrToBgrx(y[i], cb[i], cr[i])
  {
    hide YCbCrToBgrx;
    out := new Pixel[COEFFICIENTS](i => ABSENT);
    for i := 0 to COEFFICIENTS
      invariant forall j :: 0 <= j < i ==> out[j] == YCbCrToBgrx(y[j], cb[j], cr[j])
    {
      out[i] := YCbCrToBgrx(y[i], cb[i], cr[i]);
    }
  }

  lemma ConvertedCell(y: Matrix, cb: Matrix, cr: Matrix, r: nat, x: nat)
    requires Square(y, TILE) && Square(cb, TILE) && Square(cr, TILE) && r < TILE && x < TILE
    ensures Convert(y, cb, cr)[r][x] == YCbCrToBgrx(y[r][x], cb[r][x], cr[r][x])
  {
    hide YCbCrToBgrx;
    assert Convert(y, cb, cr)[r] == ConvertRow(y[r], cb[r], cr[r]);
  }

  lemma ConvertedBuffer(out: seq<Pixel>, y: seq<I16>, cb: seq<I16>, cr: seq<I16>)
    requires |out| == |y| == |cb| == |cr| == COEFFICIENTS
    requires forall i :: 0 <= i < COEFFICIENTS ==> out[i] == YCbCrToBgrx(y[i], cb[i], cr[i])
    ensures RowsOf(out, TILE, TILE)
         == Convert(Blocks.Block(y, 0, TILE, 0, TILE), Blocks.Block(cb, 0, TILE, 0, TILE), Blocks.Block(cr, 0, TILE, 0, TILE))
  {
    hide YCbCrToBgrx, Convert, Blocks.Block, RowsOf, At;
    var my, mb, mr := Blocks.Block(y, 0, TILE, 0, TILE), Blocks.Block(cb, 0, TILE, 0, TILE), Blocks.Block(cr, 0, TILE, 0, TILE);
    AtIs(0, TILE, TILE, 0);
    RowsAreWide(out, TILE, TILE);
    forall r, x | 0 <= r < TILE && 0 <= x < TILE
      ensures RowsOf(out, TILE, TILE)[r][x] == Convert(my, mb, mr)[r][x]
    {
      RowCell(out, TILE, TILE, r, x);
      BlockCell(y, r, x);
      BlockCell(cb, r, x);
      BlockCell(cr, r, x);
      ConvertedCell(my, mb, mr, r, x);
    }
    SameRows(RowsOf(out, TILE, TILE), Convert(my, mb, mr), TILE);
  }

  /** The pixels of a tile state, row after row. */
  method RenderTile(s: TileState, extrapolate: bool) returns (pixels: seq<Pixel>)
    requires s.Valid()
    ensures |pixels| == COEFFICIENTS && RowsOf(pixels, TILE, TILE) == Render(s, extrapolate)
  {
    hide YCbCrToBgrx, Convert, Blocks.Block, RowsOf, Samples;
    var y := InverseTransform(s.y.current, extrapolate);
    var cb := InverseTransform(s.cb.current, extrapolate);
    var cr := InverseTransform(s.cr.current, extrapolate);
    var out := YCbCrPixels(y, cb, cr);
    ConvertedBuffer(out[..], y[..], cb[..], cr[..]);
    pixels := out[..];
  }
}
