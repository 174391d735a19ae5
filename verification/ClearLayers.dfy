/**
 ClearCodec's residual and subcodec layers (sections 2.2.4.1.1.1 and 2.2.4.1.1.3 of MS-RDPEGFX):
 run-length coded pixels, palette suites, raw rectangles and embedded NSCodec bitmaps.
 */
module ClearLayers {
  import opened Machine
  import opened Bits
  import opened Grid
  import opened Pixels
  import opened Seqs
  import opened Bytes
  import opened VBars
  import opened NsImage
  import VBarLockstep

  // ---------- Run lengths ----------

  /** One, two or four bytes, whichever the escapes before them announce. */
  function ReadRunLength(data: seq<Byte>, p: nat): (r: Option<(U32, nat)>)
    ensures r.Some? ==> p < r.value.1 <= |data|
  {
    match ReadU8(data, p)
    case None => None
    case Some((f1, q)) =>
      if f1 < 0xFF then Some((f1, q))
      else
        match ReadU16(data, q)
        case None => None
        case Some((f2, q')) =>
          if f2 < 0xFFFF then Some((f2, q'))
          else
            match ReadU32(data, q')
            case None => None
            case Some((f3, q'')) => Some((f3, q''))
  }

  function RunLengthBytes(n: U32): (r: seq<Byte>)
    ensures r != []
  {
    if n < 0xFF then [n] else if n < 0xFFFF then [0xFF] + Le16Bytes(n) else [0xFF] + (Le16Bytes(0xFFFF) + Le32Bytes(n))
  }

  lemma RunLengthBack(data: seq<Byte>, p: nat, n: U32, rest: seq<Byte>)
    requires p <= |data| && data[p..] == RunLengthBytes(n) + rest
    ensures ReadRunLength(data, p) == Some((n, p + |RunLengthBytes(n)|))
    ensures p + |RunLengthBytes(n)| <= |data| && data[p + |RunLengthBytes(n)|..] == rest
  {
    hide ReadU8, ReadU16, ReadU32, Le16Bytes, Le32Bytes;
    if n < 0xFF {
      U8Back(data, p, n, rest);
    } else if n < 0xFFFF {
      assert data[p..] == [0xFF] + (Le16Bytes(n) + rest);
      U8Back(data, p, 0xFF, Le16Bytes(n) + rest);
      U16Back(data, p + 1, n, rest);
    } else {
      assert data[p..] == [0xFF] + (Le16Bytes(0xFFFF) + (Le32Bytes(n) + rest));
      U8Back(data, p, 0xFF, Le16Bytes(0xFFFF) + (Le32Bytes(n) + rest));
      U16Back(data, p + 1, 0xFFFF, Le32Bytes(n) + rest);
      U32Back(data, p + 3, n, rest);
    }
  }

  lemma BgrBack(data: seq<Byte>, p: nat, c: Bgr, rest: seq<Byte>)
    requires p <= |data| && data[p..] == [c.b, c.g, c.r] + rest
    ensures ReadBgr(data, p) == Some((c, p + 3)) && data[p + 3..] == rest
  {
    BytesBack(data, p, [c.b, c.g, c.r], rest);
    var f := data[p..p + 3];
    assert f[0] == data[p] && f[1] == data[p + 1] && f[2] == data[p + 2];
  }

  // ---------- Residual ----------

  /** `run` copies of `c` from cell `at` on, as many as there is room for. */
  function FillRun(tile: Tile, at: nat, c: Bgr, run: nat): (r: Tile)
    requires at <= |tile|
    ensures |r| == |tile|
  {
    var n := Min(run, |tile| - at);
    tile[..at] + seq(n, i => c) + tile[at + n..]
  }

  function DecodeResidual(data: seq<Byte>, p: nat, at: nat, tile: Tile): (r: Option<Tile>)
    requires at <= |tile|
    ensures r.Some? ==> |r.value| == |tile|
    decreases |data| - p
  {
    if p >= |data| || at >= |tile| then Some(tile)
    else
      match ReadBgr(data, p)
      case None => None
      case Some((c, q)) =>
        match ReadRunLength(data, q)
        case None => None
        case Some((run, next)) => DecodeResidual(data, next, Min(at + run, |tile|), FillRun(tile, at, c, run))
  }

  /** The sender's residual: maximal runs of equal pixels. */
  function EncodeResidual(pixels: seq<Bgr>): seq<Byte>
    decreases |pixels|
  {
    if pixels == [] then []
    else
      var n := RunOf(pixels, pixels[0], 0xFFFF_FFFF);
      [pixels[0].b, pixels[0].g, pixels[0].r] + (RunLengthBytes(n) + EncodeResidual(pixels[n..]))
  }

  lemma RunFills(tile: Tile, at: nat, pixels: seq<Bgr>, n: nat)
    requires 0 < n <= |pixels| && at + |pixels| == |tile| && forall i :: 0 <= i < n ==> pixels[i] == pixels[0]
    ensures FillRun(tile, at, pixels[0], n)[..at + n] + pixels[n..] == tile[..at] + pixels
  {
    assert FillRun(tile, at, pixels[0], n)[..at + n] == tile[..at] + pixels[..n];
    assert pixels[..n] + pixels[n..] == pixels;
  }

  lemma {:induction false} ResidualFrom(data: seq<Byte>, p: nat, at: nat, tile: Tile, pixels: seq<Bgr>)
    requires at + |pixels| == |tile| && p <= |data| && data[p..] == EncodeResidual(pixels)
    ensures DecodeResidual(data, p, at, tile) == Some(tile[..at] + pixels)
    decreases |pixels|
  {
    hide ReadBgr, ReadRunLength, RunLengthBytes, RunOf, FillRun;
    if pixels == [] {
      assert tile[..at] + [] == tile;
    } else {
      var n := RunOf(pixels, pixels[0], 0xFFFF_FFFF);
      RunIsNotEmpty(pixels, 0xFFFF_FFFF);
      var colour, run, more := [pixels[0].b, pixels[0].g, pixels[0].r], RunLengthBytes(n), EncodeResidual(pixels[n..]);
      BgrBack(data, p, pixels[0], run + more);
      RunLengthBack(data, p + 3, n, more);
      var tile' := FillRun(tile, at, pixels[0], n);
      RunFills(tile, at, pixels, n);
      ResidualFrom(data, p + 3 + |run|, at + n, tile', pixels[n..]);
    }
  }

  lemma RunIsNotEmpty<T>(s: seq<T>, cap: nat)
    requires s != [] && cap > 0
    ensures RunOf(s, s[0], cap) > 0
  {
  }

  /** Every tile can be sent as residual, whatever the receiver's tile held before. */
  lemma ResidualRoundTrip(tile: Tile, pixels: seq<Bgr>)
    requires |pixels| == |tile|
    ensures DecodeResidual(EncodeResidual(pixels), 0, 0, tile) == Some(pixels)
  {
    var data := EncodeResidual(pixels);
    assert data[0..] == data;
    ResidualFrom(data, 0, 0, tile, pixels);
    assert tile[..0] + pixels == pixels;
  }

  // ---------- Palette suites (RLEX) ----------

  /** The least number of bits that hold `x`, but at least one. */
  function BitsNeeded(x: nat): (n: nat)
    ensures n >= 1 && x < Pow2(n) && (n > 1 ==> Pow2(n - 1) <= x)
  {
    if x < 2 then 1 else 1 + BitsNeeded(x / 2)
  }

  const MAX_PALETTE := 0x7F

  /** The width of a palette index; a palette of none or one entry still takes a bit. */
  function IndexBits(palette: seq<Bgr>): nat {
    BitsNeeded(if |palette| == 0 then 0 else |palette| - 1)
  }

  /** `run` times the first colour, then the palette from `start` to `stop`. */
  datatype Suite = Suite(run: U32, start: nat, stop: nat)

  function Expanded(s: Suite, palette: seq<Bgr>): (r: seq<Bgr>)
    requires s.start <= s.stop < |palette|
    ensures |r| > 0
  {
    seq(s.run, i => palette[s.start]) + palette[s.start..s.stop + 1]
  }

  /** The low bits of the byte are the last palette index, the high bits how far before it the first one lies. */
  function SuiteOf(byte: Byte, run: U32, palette: seq<Bgr>): (r: Option<Suite>)
    ensures r.Some? ==> r.value.start <= r.value.stop < |palette|
  {
    var stop, depth := Low(byte, IndexBits(palette)), Shr(byte, IndexBits(palette));
    if depth > stop || stop >= |palette| then None else Some(Suite(run, stop - depth, stop))
  }

  function ReadSuite(data: seq<Byte>, p: nat, palette: seq<Bgr>): (r: Option<(Suite, nat)>)
    ensures r.Some? ==> p < r.value.1 <= |data| && r.value.0.start <= r.value.0.stop < |palette|
  {
    match ReadU8(data, p)
    case None => None
    case Some((byte, q)) =>
      match ReadRunLength(data, q)
      case None => None
      case Some((run, next)) =>
        match SuiteOf(byte, run, palette)
        case None => None
        case Some(suite) => Some((suite, next))
  }

  function Take(s: seq<Bgr>, n: nat): (r: seq<Bgr>)
    ensures |r| == Min(|s|, n)
  {
    s[..Min(|s|, n)]
  }

  /** The pixels of the suites from `p` on, at most `left` of them. */
  function DecodeSuites(data: seq<Byte>, p: nat, palette: seq<Bgr>, left: nat): Option<seq<Bgr>>
    decreases |data| - p
  {
    if p >= |data| || left == 0 then Some([])
    else
      match ReadSuite(data, p, palette)
      case None => None
      case Some((suite, next)) =>
        var pixels := Take(Expanded(suite, palette), left);
        match DecodeSuites(data, next, palette, left - |pixels|)
        case None => None
        case Some(more) => Some(pixels + more)
  }

  function DecodeRlex(data: seq<Byte>, left: nat): Option<seq<Bgr>> {
    match ReadU8(data, 0)
    case None => None
    case Some((count, p)) =>
      if count > MAX_PALETTE then None
      else
        match ReadPixels(data, p, count)
        case None => None
        case Some((palette, q)) => DecodeSuites(data, q, palette, left)
  }

  predicate SuiteFits(s: Suite, palette: seq<Bgr>) {
    s.start <= s.stop < |palette| && Shl(s.stop - s.start, IndexBits(palette)) + s.stop < 0x100
  }

  function EncodeSuite(s: Suite, palette: seq<Bgr>): seq<Byte>
    requires SuiteFits(s, palette)
  {
    [Shl(s.stop - s.start, IndexBits(palette)) + s.stop] + RunLengthBytes(s.run)
  }

  function EncodeSuites(ss: seq<Suite>, palette: seq<Bgr>): seq<Byte>
    requires forall i :: 0 <= i < |ss| ==> SuiteFits(ss[i], palette)
  {
    if ss == [] then [] else EncodeSuite(ss[0], palette) + EncodeSuites(ss[1..], palette)
  }

  function ExpandAll(ss: seq<Suite>, palette: seq<Bgr>): seq<Bgr>
    requires forall i :: 0 <= i < |ss| ==> SuiteFits(ss[i], palette)
  {
    if ss == [] then []
    else
      assert SuiteFits(ss[0], palette);
      Expanded(ss[0], palette) + ExpandAll(ss[1..], palette)
  }

  function EncodeRlex(palette: seq<Bgr>, ss: seq<Suite>): seq<Byte>
    requires |palette| <= MAX_PALETTE && forall i :: 0 <= i < |ss| ==> SuiteFits(ss[i], palette)
  {
    [|palette|] + (VBarLockstep.PixelBytes(palette) + EncodeSuites(ss, palette))
  }

  lemma SuiteBack(data: seq<Byte>, p: nat, s: Suite, palette: seq<Bgr>, rest: seq<Byte>)
    requires SuiteFits(s, palette) && p <= |data| && data[p..] == EncodeSuite(s, palette) + rest
    ensures ReadSuite(data, p, palette) == Some((s, p + |EncodeSuite(s, palette)|))
    ensures p + |EncodeSuite(s, palette)| <= |data| && data[p + |EncodeSuite(s, palette)|..] == rest
  {
    hide ReadU8, ReadRunLength, RunLengthBytes, IndexBits, Pow2, Shl, Shr, Low;
    var bits, depth := IndexBits(palette), s.stop - s.start;
    var byte: Byte := Shl(depth, bits) + s.stop;
    assert data[p..] == [byte] + (RunLengthBytes(s.run) + rest);
    U8Back(data, p, byte, RunLengthBytes(s.run) + rest);
    RunLengthBack(data, p + 1, s.run, rest);
    IndexFits(s.stop, palette);
    LowAndHigh(depth, s.stop, bits);
  }

  /** A number put together from high and low bits falls into them again. */
  lemma {:induction false} LowAndHigh(high: nat, low: nat, n: nat)
    requires low < Pow2(n)
    ensures Low(Shl(high, n) + low, n) == low && Shr(Shl(high, n) + low, n) == high
    decreases n
  {
    if n > 0 {
      LowAndHigh(high, low / 2, n - 1);
      assert (Shl(high, n) + low) / 2 == Shl(high, n - 1) + low / 2;
    }
  }

  lemma IndexFits(i: nat, palette: seq<Bgr>)
    requires i < |palette|
    ensures i < Pow2(IndexBits(palette))
  {
  }

  lemma TakeSplit(a: seq<Bgr>, b: seq<Bgr>, left: nat)
    ensures |Take(a, left)| <= left && Take(a, left) + Take(b, left - |Take(a, left)|) == Take(a + b, left)
  {
  }

  lemma {:induction false} SuitesFrom(data: seq<Byte>, p: nat, ss: seq<Suite>, palette: seq<Bgr>, left: nat)
    requires forall i :: 0 <= i < |ss| ==> SuiteFits(ss[i], palette)
    requires p <= |data| && data[p..] == EncodeSuites(ss, palette)
    ensures DecodeSuites(data, p, palette, left) == Some(Take(ExpandAll(ss, palette), left))
    decreases |ss|
  {
    hide ReadSuite, EncodeSuite, Expanded, Take;
    if ss == [] {
      assert Take([], left) == [];
    } else if left == 0 {
      assert Take(ExpandAll(ss, palette), 0) == [];
    } else {
      var pixels, rest := Expanded(ss[0], palette), ExpandAll(ss[1..], palette);
      SuiteBack(data, p, ss[0], palette, EncodeSuites(ss[1..], palette));
      SuitesFrom(data, p + |EncodeSuite(ss[0], palette)|, ss[1..], palette, left - |Take(pixels, left)|);
      TakeSplit(pixels, rest, left);
    }
  }

  /** Palette suites expand to the pixels they were built from, cut to the rectangle's size. */
  lemma RlexRoundTrip(palette: seq<Bgr>, ss: seq<Suite>, left: nat)
    requires |palette| <= MAX_PALETTE && forall i :: 0 <= i < |ss| ==> SuiteFits(ss[i], palette)
    ensures DecodeRlex(EncodeRlex(palette, ss), left) == Some(Take(ExpandAll(ss, palette), left))
  {
    hide ReadU8, ReadPixels, EncodeSuites, DecodeSuites, ExpandAll, Take;
    var data := EncodeRlex(palette, ss);
    var rest := EncodeSuites(ss, palette);
    assert data[0..] == data;
    U8Back(data, 0, |palette|, VBarLockstep.PixelBytes(palette) + rest);
    VBarLockstep.PixelsBack(data, 1, palette, rest);
    SuitesFrom(data, 1 + |VBarLockstep.PixelBytes(palette)|, ss, palette, left);
  }

  // ---------- Rectangles ----------

  /** Paints `pixels` in reading order into a rectangle `width` wide with its corner at (x0, y0), from its cell (cx, cy) on. */
  function PaintRect(tile: Tile, w: nat, h: nat, x0: nat, y0: nat, width: nat, cx: nat, cy: nat, pixels: seq<Bgr>): (r: Tile)
    requires |tile| == At(0, w, h, 0)
    ensures |r| == |tile|
    decreases |pixels|
  {
    if pixels == [] then tile
    else
      var tile' := SetPixel(tile, w, h, x0 + cx, y0 + cy, pixels[0]);
      if cx + 1 < width then PaintRect(tile', w, h, x0, y0, width, cx + 1, cy, pixels[1..])
      else PaintRect(tile', w, h, x0, y0, width, 0, cy + 1, pixels[1..])
  }

  /** Each cell of the rectangle that a pixel is left for takes its colour; all other cells stay. */
  lemma {:induction false} RectShows(tile: Tile, w: nat, h: nat, x0: nat, y0: nat, width: nat, cx: nat, cy: nat, pixels: seq<Bgr>, x: nat, y: nat)
    requires |tile| == At(0, w, h, 0) && x < w && y < h && cx < width
    ensures At(0, w, y, x) < |tile|
    ensures PaintRect(tile, w, h, x0, y0, width, cx, cy, pixels)[At(0, w, y, x)]
         == if x0 <= x < x0 + width && y0 <= y && 0 <= At(0, width, y - y0, x - x0) - At(0, width, cy, cx) < |pixels|
            then pixels[At(0, width, y - y0, x - x0) - At(0, width, cy, cx)]
            else tile[At(0, w, y, x)]
    decreases |pixels|
  {
    hide At, SetPixel;
    if pixels == [] {
      AtInside(0, w, h, y, x);
    } else {
      SetPixelShows(tile, w, h, x0 + cx, y0 + cy, pixels[0], x, y);
      AtCol(0, width, cy, cx);
      AtCol(0, width, cy, cx + 1);
      AtCol(0, width, cy, 0);
      if x0 <= x < x0 + width && y0 <= y {
        AtDiffers(0, width, cy, cx);
      }
      var tile' := SetPixel(tile, w, h, x0 + cx, y0 + cy, pixels[0]);
      if cx + 1 < width {
        RectShows(tile', w, h, x0, y0, width, cx + 1, cy, pixels[1..], x, y);
      } else {
        RectShows(tile', w, h, x0, y0, width, 0, cy + 1, pixels[1..], x, y);
      }
    }
  }

  // ---------- Subcodecs ----------

  const UNCOMPRESSED := 0
  const NSCODEC := 1
  const RLEX := 2

  datatype Subrect = Subrect(x: U16, y: U16, width: U16, height: U16, id: Byte, bitmap: seq<Byte>)

  function ReadSubrect(data: seq<Byte>, p: nat): (r: Option<(Subrect, nat)>)
    ensures r.Some? ==> p < r.value.1 <= |data|
  {
    match ReadU16(data, p)
    case None => None
    case Some((x, p1)) =>
      match ReadU16(data, p1)
      case None => None
      case Some((y, p2)) =>
        match ReadU16(data, p2)
        case None => None
        case Some((width, p3)) =>
          match ReadU16(data, p3)
          case None => None
          case Some((height, p4)) =>
            match ReadU32(data, p4)
            case None => None
            case Some((length, p5)) =>
              match ReadU8(data, p5)
              case None => None
              case Some((id, p6)) =>
                match ReadBytes(data, p6, length)
                case None => None
                case Some((bitmap, p7)) => Some((Subrect(x, y, width, height, id, bitmap), p7))
  }

  /** The pixels of a rectangle in reading order. */
  function SubrectPixels(s: Subrect): Option<seq<Bgr>> {
    if s.id == UNCOMPRESSED then
      if |s.bitmap| != s.width * s.height * 3 then None
      else
        match ReadPixels(s.bitmap, 0, s.width * s.height)
        case None => None
        case Some((pixels, _)) => Some(pixels)
    else if s.id == RLEX then DecodeRlex(s.bitmap, s.width * s.height)
    else if s.id == NSCODEC then
      match DecodeBitmap(s.bitmap, s.width, s.height)
      case Err => None
      case Ok(image) => Some(Raster(image, 0, 0))
    else None
  }

  function DecodeSubcodecs(data: seq<Byte>, p: nat, tile: Tile, w: nat, h: nat): (r: Option<Tile>)
    requires |tile| == At(0, w, h, 0)
    ensures r.Some? ==> |r.value| == |tile|
    decreases |data| - p
  {
    if p >= |data| then Some(tile)
    else
      match ReadSubrect(data, p)
      case None => None
      case Some((s, next)) =>
        match SubrectPixels(s)
        case None => None
        case Some(pixels) => DecodeSubcodecs(data, next, PaintRect(tile, w, h, s.x, s.y, s.width, 0, 0, pixels), w, h)
  }

  predicate SubrectSendable(s: Subrect) {
    |s.bitmap| < 0x1_0000_0000 && SubrectPixels(s).Some?
  }

  function EncodeSubrect(s: Subrect): seq<Byte>
    requires |s.bitmap| < 0x1_0000_0000
  {
    Le16Bytes(s.x) + (Le16Bytes(s.y) + (Le16Bytes(s.width) + (Le16Bytes(s.height) + (Le32Bytes(|s.bitmap|) + ([s.id] + s.bitmap)))))
  }

  lemma SubrectBack(data: seq<Byte>, p: nat, s: Subrect, rest: seq<Byte>)
    requires |s.bitmap| < 0x1_0000_0000 && p <= |data| && data[p..] == EncodeSubrect(s) + rest
    ensures ReadSubrect(data, p) == Some((s, p + |EncodeSubrect(s)|))
    ensures p + |EncodeSubrect(s)| <= |data| && data[p + |EncodeSubrect(s)|..] == rest
  {
    hide Le16Bytes, Le32Bytes, ReadU8, ReadU16, ReadU32, ReadBytes;
    var r6 := s.bitmap + rest;
    var r5 := [s.id] + r6;
    var r4 := Le32Bytes(|s.bitmap|) + r5;
    var r3 := Le16Bytes(s.height) + r4;
    var r2 := Le16Bytes(s.width) + r3;
    var r1 := Le16Bytes(s.y) + r2;
    SubrectCode(s, rest, r1);
    U16Back(data, p, s.x, r1);
    U16Back(data, p + 2, s.y, r2);
    U16Back(data, p + 4, s.width, r3);
    U16Back(data, p + 6, s.height, r4);
    U32Back(data, p + 8, |s.bitmap|, r5);
    U8Back(data, p + 12, s.id, r6);
    BytesBack(data, p + 13, s.bitmap, rest);
  }

  lemma SubrectCode(s: Subrect, rest: seq<Byte>, r1: seq<Byte>)
    requires |s.bitmap| < 0x1_0000_0000
    requires r1 == Le16Bytes(s.y) + (Le16Bytes(s.width) + (Le16Bytes(s.height) + (Le32Bytes(|s.bitmap|) + ([s.id] + (s.bitmap + rest)))))
    ensures EncodeSubrect(s) + rest == Le16Bytes(s.x) + r1 && |EncodeSubrect(s)| == 13 + |s.bitmap|
  {
    hide Le16Bytes, Le32Bytes;
    var a, b, c, d, e, f := Le16Bytes(s.x), Le16Bytes(s.y), Le16Bytes(s.width), Le16Bytes(s.height), Le32Bytes(|s.bitmap|), [s.id];
    assert f + s.bitmap + rest == f + (s.bitmap + rest);
    assert e + (f + s.bitmap) + rest == e + (f + s.bitmap + rest);
    assert d + (e + (f + s.bitmap)) + rest == d + (e + (f + s.bitmap) + rest);
    assert c + (d + (e + (f + s.bitmap))) + rest == c + (d + (e + (f + s.bitmap)) + rest);
    assert b + (c + (d + (e + (f + s.bitmap)))) + rest == b + (c + (d + (e + (f + s.bitmap))) + rest);
    assert a + (b + (c + (d + (e + (f + s.bitmap))))) + rest == a + (b + (c + (d + (e + (f + s.bitmap)))) + rest);
  }

  ghost predicate SubrectsSendable(ss: seq<Subrect>) {
    forall i :: 0 <= i < |ss| ==> SubrectSendable(ss[i])
  }

  function EncodeSubrects(ss: seq<Subrect>): seq<Byte>
    requires SubrectsSendable(ss)
  {
    if ss == [] then [] else EncodeSubrect(ss[0]) + EncodeSubrects(ss[1..])
  }

  /** The rectangles painted one after another. */
  function PaintSubrects(tile: Tile, w: nat, h: nat, ss: seq<Subrect>): (r: Tile)
    requires |tile| == At(0, w, h, 0) && SubrectsSendable(ss)
    ensures |r| == |tile|
    decreases |ss|
  {
    if ss == [] then tile
    else
      var s := ss[0];
      PaintSubrects(PaintRect(tile, w, h, s.x, s.y, s.width, 0, 0, SubrectPixels(s).value), w, h, ss[1..])
  }

  lemma {:induction false} SubrectsFrom(data: seq<Byte>, p: nat, tile: Tile, w: nat, h: nat, ss: seq<Subrect>)
    requires |tile| == At(0, w, h, 0) && SubrectsSendable(ss) && p <= |data| && data[p..] == EncodeSubrects(ss)
    ensures DecodeSubcodecs(data, p, tile, w, h) == Some(PaintSubrects(tile, w, h, ss))
    decreases |ss|
  {
    hide ReadSubrect, EncodeSubrect, SubrectPixels, PaintRect, At;
    if ss != [] {
      var s := ss[0];
      assert SubrectSendable(s);
      SubrectBack(data, p, s, EncodeSubrects(ss[1..]));
      SubrectsFrom(data, p + |EncodeSubrect(s)|, PaintRect(tile, w, h, s.x, s.y, s.width, 0, 0, SubrectPixels(s).value), w, h, ss[1..]);
    }
  }
}
