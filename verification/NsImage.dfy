/** An NSCodec bitmap: header, four planes, and the picture they spell. */
module NsImage {
  import opened Machine
  import opened Seqs
  import opened Pixels
  import opened NsCodec

  // ---------- Where the samples of a pixel lie ----------

  datatype Layout = Layout(lumaStride: nat, lumaSize: nat, chromaStride: nat, chromaSize: nat, alphaSize: nat)

  function RoundUp(n: nat, multiple: nat): nat
    requires multiple > 0
  {
    (n + multiple - 1) / multiple * multiple
  }

  function PlaneLayout(width: nat, height: nat, subsampling: bool): Layout {
    var all := width * height;
    if subsampling then
      var lumaStride := RoundUp(width, 8);
      var chromaStride := lumaStride / 2;
      Layout(lumaStride, lumaStride * height, chromaStride, chromaStride * (RoundUp(height, 2) / 2), all)
    else
      Layout(width, all, width, all, all)
  }

  function LumaIndex(layout: Layout, x: nat, y: nat): nat {
    y * layout.lumaStride + x
  }

  /** Two by two pixels share their chroma samples under subsampling. */
  function ChromaIndex(layout: Layout, subsampling: bool, x: nat, y: nat): nat {
    if subsampling then y / 2 * layout.chromaStride + x / 2 else y * layout.chromaStride + x
  }

  lemma CellBelow(stride: nat, rows: nat, y: nat, x: nat)
    requires y < rows && x < stride
    ensures y * stride + x < stride * rows
  {
    assert (y + 1) * stride <= rows * stride;
  }

  lemma ProductBelow(a: nat, b: nat, c: nat)
    requires a <= 65534 && b <= 65536 && c <= 65535
    ensures a * b + c < 0x1_0000_0000
  {
    assert a * b <= 65534 * b;
  }

  lemma RoundedUp(n: U16)
    ensures n <= RoundUp(n, 8) <= 65536 && (n + 1) / 2 <= RoundUp(n, 8) / 2
    ensures RoundUp(n, 2) / 2 == (n + 1) / 2
  {
    var q: nat, h: nat := (n + 7) / 8, (n + 1) / 2;
    assert n <= 8 * q <= n + 7 && n <= 2 * h <= n + 1 && q <= 8192;
    assert RoundUp(n, 8) == 8 * q && RoundUp(n, 2) == 2 * h;
    HalfOf(4 * q);
    HalfOf(h);
  }

  lemma HalfOf(n: nat)
    ensures 2 * n / 2 == n
  {
  }

  /** Inside the picture no sample index leaves its plane, and none overflows 32 bits. */
  lemma IndexesInRange(width: U16, height: U16, subsampling: bool, x: nat, y: nat)
    requires x < width && y < height
    ensures var layout := PlaneLayout(width, height, subsampling);
            && LumaIndex(layout, x, y) < layout.lumaSize
            && ChromaIndex(layout, subsampling, x, y) < layout.chromaSize
            && LumaIndex(layout, x, y) < 0x1_0000_0000 && ChromaIndex(layout, subsampling, x, y) < 0x1_0000_0000
  {
    RoundedUp(width);
    RoundedUp(height);
    hide RoundUp;
    if subsampling {
      var stride, rows := RoundUp(width, 8), RoundUp(height, 2) / 2;
      CellBelow(stride, height, y, x);
      CellBelow(stride / 2, rows, y / 2, x / 2);
      ProductBelow(y, stride, x);
      ProductBelow(y / 2, stride / 2, x / 2);
    } else {
      CellBelow(width, height, y, x);
      ProductBelow(y, width, x);
    }
  }

  // ---------- Colour ----------

  /** `x as i8`. */
  function Wrap8(x: int): int {
    (x + 0x80) % 0x100 - 0x80
  }

  function Clamp8(x: int): Byte {
    if x < 0 then 0 else if x > 255 then 255 else x
  }

  /** A chroma sample is shifted by the colour loss level and truncated to a signed byte. */
  function Chroma(raw: Byte, shift: nat): int {
    Max(-255, Min(255, Wrap8(Shl(raw, shift))))
  }

  function Convert(y: Byte, co: int, cg: int): Bgr {
    Bgr(Clamp8(y - co - cg), Clamp8(y + cg), Clamp8(y + co - cg))
  }

  /** Where nothing saturates, luma and chroma can be read off the colour again. */
  lemma ConvertIsLossless(y: Byte, co: int, cg: int)
    requires 0 <= y - co - cg < 0x100 && 0 <= y + cg < 0x100 && 0 <= y + co - cg < 0x100
    ensures var p := Convert(y, co, cg);
            p.b + 2 * p.g + p.r == 4 * y && p.r - p.b == 2 * co && 2 * p.g - p.b - p.r == 4 * cg
  {
  }

  /** A chroma sample survives the shift exactly when its dropped high bits only repeat the sign. */
  lemma ChromaKept(c: int, shift: nat)
    requires shift <= 6 && -0x80 <= c < 0x80
    ensures Chroma((c + 0x100) % 0x100, shift) == Shl(c, shift) <==> -0x80 <= Shl(c, shift) < 0x80
  {
    hide Shl, Pow2;
    ShlAdd(c, 0x100, shift);
    ShlIs(0x100, shift);
    if c < 0 {
      assert (c + 0x100) % 0x100 == c + 0x100;
      Wrap8Shift(Shl(c, shift), Pow2(shift));
    } else {
      assert (c + 0x100) % 0x100 == c;
    }
  }

  lemma Wrap8Shift(x: int, n: int)
    ensures Wrap8(x + 0x100 * n) == Wrap8(x)
  {
  }

  // ---------- The bitmap ----------

  datatype Image = Image(width: U16, height: U16, subsampling: bool, shift: nat, planes: seq<seq<Byte>>) {
    function Shape(): Layout {
      PlaneLayout(width, height, subsampling)
    }

    /** The sizes of the luma, Co, Cg and alpha planes. */
    function Sizes(): (r: seq<nat>)
      ensures |r| == 4
    {
      [Shape().lumaSize, Shape().chromaSize, Shape().chromaSize, Shape().alphaSize]
    }

    predicate Valid() {
      |planes| == 4 && forall i :: 0 <= i < 4 ==> |planes[i]| == Sizes()[i]
    }

    function Pixel(x: nat, y: nat): Bgr
      requires Valid() && x < width && y < height
    {
      IndexesInRange(width, height, subsampling, x, y);
      var c := ChromaIndex(Shape(), subsampling, x, y);
      Convert(planes[0][LumaIndex(Shape(), x, y)], Chroma(planes[1][c], shift), Chroma(planes[2][c], shift))
    }

    /** Luma, Co and Cg of a pixel, as they come out of the planes. */
    function Samples(x: nat, y: nat): (Byte, int, int)
      requires Valid() && x < width && y < height
    {
      IndexesInRange(width, height, subsampling, x, y);
      var c := ChromaIndex(Shape(), subsampling, x, y);
      (planes[0][LumaIndex(Shape(), x, y)], Chroma(planes[1][c], shift), Chroma(planes[2][c], shift))
    }

    /** No colour of the pixel has to be clamped. */
    predicate Unsaturated(x: nat, y: nat)
      requires Valid() && x < width && y < height
    {
      var (luma, co, cg) := Samples(x, y);
      0 <= luma - co - cg < 0x100 && 0 <= luma + cg < 0x100 && 0 <= luma + co - cg < 0x100
    }
  }

  /** Where no colour is clamped, equal pixels have equal samples, whatever the layouts of the images. */
  lemma PixelTells(a: Image, b: Image, x: nat, y: nat)
    requires a.Valid() && x < a.width && y < a.height && a.Unsaturated(x, y)
    requires b.Valid() && x < b.width && y < b.height && b.Unsaturated(x, y)
    ensures a.Pixel(x, y) == b.Pixel(x, y) <==> a.Samples(x, y) == b.Samples(x, y)
  {
    var (luma, co, cg) := a.Samples(x, y);
    var (luma', co', cg') := b.Samples(x, y);
    hide *;
    ConvertIsLossless(luma, co, cg);
    ConvertIsLossless(luma', co', cg');
  }

  /** The pixels of an image in reading order, from (x, y) on. */
  function Raster(image: Image, x: nat, y: nat): seq<Bgr>
    requires image.Valid()
    decreases image.height - y, image.width - x
  {
    if y >= image.height || x >= image.width then []
    else [image.Pixel(x, y)] + if x + 1 < image.width then Raster(image, x + 1, y) else Raster(image, 0, y + 1)
  }

  /** Plane after plane, `counts[i]` bytes for a plane of `sizes[i]`. */
  function DecodePlanes(data: seq<Byte>, pos: nat, counts: seq<nat>, sizes: seq<nat>): (r: Result<seq<seq<Byte>>>)
    requires |counts| == |sizes|
    ensures r.Ok? ==> |r.value| == |sizes| && forall i :: 0 <= i < |sizes| ==> |r.value[i]| == sizes[i]
    decreases |counts|
  {
    if counts == [] then Ok([])
    else if pos + counts[0] > |data| then Err
    else
      match DecodePlane(data[pos..pos + counts[0]], sizes[0])
      case Err => Err
      case Ok(plane) =>
        match DecodePlanes(data, pos + counts[0], counts[1..], sizes[1..])
        case Err => Err
        case Ok(planes) => Ok([plane] + planes)
  }

  function Word(data: seq<Byte>, at: nat): U32
    requires at + 4 <= |data|
  {
    Le32(data[at], data[at + 1], data[at + 2], data[at + 3])
  }

  const HEADER := 20

  function Counts(data: seq<Byte>): (r: seq<nat>)
    requires |data| >= HEADER
    ensures |r| == 4
  {
    [Word(data, 0), Word(data, 4), Word(data, 8), Word(data, 12)]
  }

  function DecodeBitmap(data: seq<Byte>, width: U16, height: U16): (r: Result<Image>)
    ensures r.Ok? ==> r.value.Valid() && r.value.width == width && r.value.height == height
  {
    if |data| < HEADER || !(1 <= data[16] <= 7) then Err
    else
      var image := Image(width, height, data[17] != 0, data[16] - 1, []);
      match DecodePlanes(data, HEADER, Counts(data), image.Sizes())
      case Err => Err
      case Ok(planes) => Ok(image.(planes := planes))
  }

  // ---------- The sender's bitmap ----------

  function PlaneBytes(planes: seq<seq<Byte>>): seq<Byte> {
    if planes == [] then [] else EncodePlane(planes[0]) + PlaneBytes(planes[1..])
  }

  predicate Sendable(image: Image) {
    image.Valid() && image.shift <= 6 && forall i :: 0 <= i < 4 ==> |image.planes[i]| < 0x1_0000_0000
  }

  function Lengths(planes: seq<seq<Byte>>): (r: seq<nat>)
    ensures |r| == |planes|
  {
    if planes == [] then [] else [|EncodePlane(planes[0])|] + Lengths(planes[1..])
  }

  function Options(image: Image): seq<Byte>
    requires image.shift <= 6
  {
    [image.shift + 1, if image.subsampling then 1 else 0, 0, 0]
  }

  function EncodeBitmap(image: Image): seq<Byte>
    requires Sendable(image)
  {
    var p := image.planes;
    Le32Bytes(|EncodePlane(p[0])|) + Le32Bytes(|EncodePlane(p[1])|) + Le32Bytes(|EncodePlane(p[2])|) + Le32Bytes(|EncodePlane(p[3])|)
    + Options(image) + PlaneBytes(p)
  }

  lemma PlaneFirst(data: seq<Byte>, pos: nat, counts: seq<nat>, sizes: seq<nat>, plane: seq<Byte>, rest: seq<seq<Byte>>)
    requires |counts| == |sizes| > 0 && pos + counts[0] <= |data|
    requires DecodePlane(data[pos..pos + counts[0]], sizes[0]) == Ok(plane)
    requires DecodePlanes(data, pos + counts[0], counts[1..], sizes[1..]) == Ok(rest)
    ensures DecodePlanes(data, pos, counts, sizes) == Ok([plane] + rest)
  {
    hide DecodePlane;
  }

  lemma PlaneBack(data: seq<Byte>, pos: nat, plane: seq<Byte>, counts: seq<nat>, sizes: seq<nat>, more: seq<Byte>, rest: seq<seq<Byte>>)
    requires pos <= |data| && data[pos..] == EncodePlane(plane) + more && |counts| == |sizes|
    requires DecodePlanes(data, pos + |EncodePlane(plane)|, counts, sizes) == Ok(rest)
    ensures DecodePlanes(data, pos, [|EncodePlane(plane)|] + counts, [|plane|] + sizes) == Ok([plane] + rest)
  {
    hide EncodePlane, DecodePlane, DecodePlanes;
    var code := EncodePlane(plane);
    var counts', sizes' := [|code|] + counts, [|plane|] + sizes;
    assert counts'[1..] == counts && sizes'[1..] == sizes;
    assert data[pos..pos + |code|] == data[pos..][..|code|] == code;
    PlaneRoundTrip(plane);
    PlaneFirst(data, pos, counts', sizes', plane, rest);
  }

  lemma {:induction false} PlanesRoundTrip(data: seq<Byte>, pos: nat, planes: seq<seq<Byte>>, sizes: seq<nat>, junk: seq<Byte>)
    requires pos <= |data| && data[pos..] == PlaneBytes(planes) + junk
    requires |sizes| == |planes| && forall i :: 0 <= i < |sizes| ==> |planes[i]| == sizes[i]
    ensures DecodePlanes(data, pos, Lengths(planes), sizes) == Ok(planes)
    decreases |planes|
  {
    hide EncodePlane, DecodePlane;
    if planes != [] {
      hide DecodePlanes;
      var code, rest := EncodePlane(planes[0]), planes[1..];
      Advance(data, pos, code, PlaneBytes(rest), junk);
      PlanesRoundTrip(data, pos + |code|, rest, sizes[1..], junk);
      PlaneBack(data, pos, planes[0], Lengths(rest), sizes[1..], PlaneBytes(rest) + junk, rest);
      assert [planes[0]] + rest == planes && [|planes[0]|] + sizes[1..] == sizes;
    } else {
      assert Lengths(planes) == [];
    }
  }

  lemma WordAt(data: seq<Byte>, at: nat, v: U32)
    requires at + 4 <= |data| && data[at..at + 4] == Le32Bytes(v)
    ensures Word(data, at) == v
  {
    hide Le32, Le32Bytes;
    var w := data[at..at + 4];
    assert w[0] == data[at] && w[1] == data[at + 1] && w[2] == data[at + 2] && w[3] == data[at + 3];
  }

  lemma LengthsOfFour(planes: seq<seq<Byte>>)
    requires |planes| == 4
    ensures Lengths(planes) == [|EncodePlane(planes[0])|, |EncodePlane(planes[1])|, |EncodePlane(planes[2])|, |EncodePlane(planes[3])|]
  {
    hide EncodePlane;
    var p1, p2, p3 := planes[1..], planes[2..], planes[3..];
    assert p1[1..] == p2 && p2[1..] == p3 && p3[1..] == [];
    assert Lengths(p3) == [|EncodePlane(planes[3])|];
    assert Lengths(p2) == [|EncodePlane(planes[2])|] + Lengths(p3);
    assert Lengths(p1) == [|EncodePlane(planes[1])|] + Lengths(p2);
  }

  /** A receiver recovers every bitmap exactly, with and without subsampling, whichever planes were compressed. */
  lemma BitmapRoundTrip(image: Image, junk: seq<Byte>)
    requires Sendable(image)
    ensures DecodeBitmap(EncodeBitmap(image) + junk, image.width, image.height) == Ok(image)
  {
    hide EncodePlane, DecodePlanes, PlaneBytes, Lengths, Le32Bytes, Le32, PlaneLayout, Word;
    var p := image.planes;
    var a, b, c, d := |EncodePlane(p[0])|, |EncodePlane(p[1])|, |EncodePlane(p[2])|, |EncodePlane(p[3])|;
    var data := EncodeBitmap(image) + junk;
    assert data[0..4] == Le32Bytes(a);
    assert data[4..8] == Le32Bytes(b);
    assert data[8..12] == Le32Bytes(c);
    assert data[12..16] == Le32Bytes(d);
    WordAt(data, 0, a);
    WordAt(data, 4, b);
    WordAt(data, 8, c);
    WordAt(data, 12, d);
    assert data[HEADER..] == PlaneBytes(p) + junk;
    LengthsOfFour(p);
    assert Counts(data) == Lengths(p);
    PlanesRoundTrip(data, HEADER, p, image.Sizes(), junk);
  }
}
