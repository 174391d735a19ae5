/** `nscodec.rs`: the plane and bitmap decoders, proved against modules NsCodec and NsImage. */
module NsDecoder {
  import opened Machine
  import opened Grid
  import opened Pixels
  import opened NsCodec
  import opened NsImage

  lemma FromTail(data: seq<Byte>, p: nat)
    ensures RleFrom(data, p, TAIL) == if p + TAIL > |data| then Err else Ok(data[p..p + TAIL])
  {
  }

  lemma FromNothing(data: seq<Byte>, p: nat, left: nat)
    requires left > TAIL && ReadUnit(data, p, left) == None
    ensures RleFrom(data, p, left) == Err
  {
    hide ReadUnit;
  }

  lemma FromUnit(data: seq<Byte>, p: nat, left: nat, u: Unit)
    requires left > TAIL && ReadUnit(data, p, left) == Some(u)
    ensures RleFrom(data, p, left)
         == if u.count > left - TAIL then Err else Before(Fill(u.value, u.count), RleFrom(data, u.next, left - u.count))
  {
    hide ReadUnit;
  }

  lemma BeforeBefore(a: seq<Byte>, b: seq<Byte>, rest: Result<seq<Byte>>)
    ensures Before(a, Before(b, rest)) == Before(a + b, rest)
  {
    if rest.Ok? {
      assert a + (b + rest.value) == a + b + rest.value;
    }
  }

  /** The value and length of the next literal or run. */
  method NextUnit(data: seq<Byte>, inPos: nat, left: nat) returns (u: Option<Unit>)
    requires inPos <= |data| && left > TAIL
    ensures u == ReadUnit(data, inPos, left)
  {
    var pos := inPos;
    if pos >= |data| {
      return None;
    }
    var value := data[pos];
    pos := pos + 1;
    if left == 5 {
      return Some(Unit(value, 1, pos));
    }
    if pos < |data| && data[pos] == value {
      pos := pos + 1;
      if pos >= |data| {
        return None;
      }
      var ctrl := data[pos];
      pos := pos + 1;
      if ctrl < 0xFF {
        return Some(Unit(value, ctrl as int + 2, pos));
      }
      if pos + 4 > |data| {
        return None;
      }
      return Some(Unit(value, Le32(data[pos], data[pos + 1], data[pos + 2], data[pos + 3]), pos + 4));
    }
    return Some(Unit(value, 1, pos));
  }

  /**
   Terminates by the input it has not read: a long run of length zero consumes input without
   producing output. The loop always ends with exactly the four tail bytes outstanding.
   */
  method RleDecode(data: seq<Byte>, expectedSize: nat) returns (r: Result<seq<Byte>>)
    ensures r == Rle(data, expectedSize)
  {
    hide RleFrom, ReadUnit, Before;
    if expectedSize < TAIL {
      return Err;
    }
    var out := new Byte[expectedSize](i => 0);
    var inPos: nat, outPos: nat, left: nat := 0, 0, expectedSize;
    BeforeNothing(RleFrom(data, 0, expectedSize));
    assert out[..0] == [];
    while left > TAIL
      invariant TAIL <= left && outPos + left == expectedSize && inPos <= |data|
      invariant RleFrom(data, 0, expectedSize) == Before(out[..outPos], RleFrom(data, inPos, left))
      decreases |data| - inPos
    {
      var unit := NextUnit(data, inPos, left);
      if unit.None? {
        FromNothing(data, inPos, left);
        BeforeErr(out[..outPos]);
        return Err;
      }
      var u := unit.value;
      FromUnit(data, inPos, left, u);
      if u.count > left - TAIL {
        BeforeErr(out[..outPos]);
        return Err;
      }
      ghost var done := out[..outPos];
      BeforeBefore(done, Fill(u.value, u.count), RleFrom(data, u.next, left - u.count));
      forall i | outPos <= i < outPos + u.count {
        out[i] := u.value;
      }
      assert out[..outPos + u.count] == done + Fill(u.value, u.count);
      inPos, outPos, left := u.next, outPos + u.count, left - u.count;
    }
    assert outPos + TAIL == expectedSize;
    FromTail(data, inPos);
    if inPos + TAIL > |data| {
      BeforeErr(out[..outPos]);
      return Err;
    }
    ghost var done := out[..outPos];
    forall i | 0 <= i < TAIL {
      out[outPos + i] := data[inPos + i];
    }
    BeforeOk(done, data[inPos..inPos + TAIL]);
    assert out[..] == done + data[inPos..inPos + TAIL];
    return Ok(out[..]);
  }

  lemma BeforeNothing(rest: Result<seq<Byte>>)
    ensures Before([], rest) == rest
  {
    if rest.Ok? {
      assert [] + rest.value == rest.value;
    }
  }

  lemma BeforeErr(front: seq<Byte>)
    ensures Before(front, Err) == Err
  {
  }

  lemma BeforeOk(front: seq<Byte>, rest: seq<Byte>)
    ensures Before(front, Ok(rest)) == Ok(front + rest)
  {
  }

  method DecodePlaneBytes(data: seq<Byte>, expectedSize: nat) returns (r: Result<seq<Byte>>)
    ensures r == DecodePlane(data, expectedSize)
  {
    hide Rle;
    if data == [] {
      return Ok(Fill(0xFF, expectedSize));
    }
    if |data| >= expectedSize {
      return Ok(data[..expectedSize]);
    }
    r := RleDecode(data, expectedSize);
  }

  method DecodeFourPlanes(data: seq<Byte>, counts: seq<nat>, sizes: seq<nat>) returns (r: Result<seq<seq<Byte>>>)
    requires |counts| == |sizes|
    ensures r == DecodePlanes(data, HEADER, counts, sizes)
  {
    hide DecodePlane, DecodePlanes;
    var pos: nat := HEADER;
    var planes: seq<seq<Byte>> := [];
    AheadNothing(DecodePlanes(data, HEADER, counts, sizes));
    assert counts[0..] == counts && sizes[0..] == sizes;
    for i := 0 to |counts|
      invariant DecodePlanes(data, HEADER, counts, sizes) == Ahead(planes, DecodePlanes(data, pos, counts[i..], sizes[i..]))
    {
      PlanesStep(data, pos, counts[i..], sizes[i..]);
      assert counts[i..][1..] == counts[i + 1..] && sizes[i..][1..] == sizes[i + 1..];
      if pos + counts[i] > |data| {
        return Err;
      }
      var plane := DecodePlaneBytes(data[pos..pos + counts[i]], sizes[i]);
      if plane.Err? {
        return Err;
      }
      AheadAhead(planes, plane.value, DecodePlanes(data, pos + counts[i], counts[i + 1..], sizes[i + 1..]));
      planes := planes + [plane.value];
      pos := pos + counts[i];
    }
    PlanesEnd(data, pos, counts[|counts|..], sizes[|counts|..]);
    assert planes + [] == planes;
    return Ok(planes);
  }

  function Ahead(front: seq<seq<Byte>>, rest: Result<seq<seq<Byte>>>): Result<seq<seq<Byte>>> {
    match rest
    case Ok(planes) => Ok(front + planes)
    case Err => Err
  }

  lemma AheadNothing(rest: Result<seq<seq<Byte>>>)
    ensures Ahead([], rest) == rest
  {
    if rest.Ok? {
      assert [] + rest.value == rest.value;
    }
  }

  lemma AheadAhead(front: seq<seq<Byte>>, plane: seq<Byte>, rest: Result<seq<seq<Byte>>>)
    ensures Ahead(front, Ahead([plane], rest)) == Ahead(front + [plane], rest)
  {
    if rest.Ok? {
      assert front + ([plane] + rest.value) == front + [plane] + rest.value;
    }
  }

  lemma PlanesStep(data: seq<Byte>, pos: nat, counts: seq<nat>, sizes: seq<nat>)
    requires |counts| == |sizes| > 0
    ensures pos + counts[0] > |data| ==> DecodePlanes(data, pos, counts, sizes) == Err
    ensures pos + counts[0] <= |data| ==>
              var plane := DecodePlane(data[pos..pos + counts[0]], sizes[0]);
              DecodePlanes(data, pos, counts, sizes) ==
              if plane.Err? then Err else Ahead([plane.value], DecodePlanes(data, pos + counts[0], counts[1..], sizes[1..]))
  {
    hide DecodePlane;
  }

  lemma PlanesEnd(data: seq<Byte>, pos: nat, counts: seq<nat>, sizes: seq<nat>)
    requires |counts| == |sizes| == 0
    ensures DecodePlanes(data, pos, counts, sizes) == Ok([])
  {
  }

  lemma RasterStep(image: Image, x: nat, y: nat)
    requires image.Valid() && x < image.width && y < image.height
    ensures x + 1 < image.width ==> Raster(image, x, y) == [image.Pixel(x, y)] + Raster(image, x + 1, y)
    ensures x + 1 == image.width ==> Raster(image, x, y) == [image.Pixel(x, y)] + Raster(image, 0, y + 1)
    ensures Raster(image, 0, image.height) == []
  {
  }

  lemma {:induction false} RasterShowsFrom(image: Image, w: nat, x0: nat, y0: nat, x: nat, y: nat, k: int)
    requires image.Valid() && w == image.width && x < w && y < image.height && x0 < w && (y0 < y || (y0 == y && x0 <= x))
    requires k == At(0, w, y, x) - At(0, w, y0, x0)
    ensures 0 <= k < |Raster(image, x0, y0)| && Raster(image, x0, y0)[k] == image.Pixel(x, y)
    decreases image.height - y0, w - x0
  {
    var rest := if x0 + 1 < w then Raster(image, x0 + 1, y0) else Raster(image, 0, y0 + 1);
    hide *;
    RasterStep(image, x0, y0);
    NextCell(w, x0, y0);
    if x == x0 && y == y0 {
    } else {
      if x0 + 1 < w {
        RasterShowsFrom(image, w, x0 + 1, y0, x, y, k - 1);
      } else {
        RasterShowsFrom(image, w, 0, y0 + 1, x, y, k - 1);
      }
      BehindFirst(Raster(image, x0, y0), image.Pixel(x0, y0), rest, k);
    }
  }

  lemma NextCell(w: nat, x: nat, y: nat)
    requires x < w
    ensures At(0, w, y, x) + 1 == if x + 1 < w then At(0, w, y, x + 1) else At(0, w, y + 1, 0)
  {
    hide At;
    AtCol(0, w, y, x);
    AtCol(0, w, y, x + 1);
    AtCol(0, w, y, 0);
  }

  lemma {:induction false} RasterSizeFrom(image: Image, w: nat, x0: nat, y0: nat)
    requires image.Valid() && w == image.width && x0 < w && y0 < image.height
    ensures |Raster(image, x0, y0)| == At(0, w, image.height, 0) - At(0, w, y0, x0)
    decreases image.height - y0, w - x0
  {
    hide *;
    RasterStep(image, x0, y0);
    NextCell(w, x0, y0);
    if x0 + 1 < w {
      RasterSizeFrom(image, w, x0 + 1, y0);
    } else if y0 + 1 < image.height {
      RasterSizeFrom(image, w, 0, y0 + 1);
    }
  }

  lemma RasterSize(image: Image)
    requires image.Valid()
    ensures |Raster(image, 0, 0)| == At(0, image.width, image.height, 0)
  {
    hide At, PlaneLayout, Convert, Chroma, LumaIndex, ChromaIndex;
    AtIs(0, image.width, 0, 0);
    AtIs(0, image.width, image.height, 0);
    if image.width > 0 && image.height > 0 {
      hide Raster;
      RasterSizeFrom(image, image.width, 0, 0);
    }
  }

  lemma BehindFirst<T>(s: seq<T>, first: T, rest: seq<T>, k: int)
    requires s == [first] + rest && 1 <= k <= |rest|
    ensures k < |s| && s[k] == rest[k - 1]
  {
  }

  /** The raster has the pixel (x, y) at index y * width + x. */
  lemma RasterShows(image: Image, x: nat, y: nat)
    requires image.Valid() && x < image.width && y < image.height
    ensures At(0, image.width, y, x) < |Raster(image, 0, 0)|
    ensures Raster(image, 0, 0)[At(0, image.width, y, x)] == image.Pixel(x, y)
  {
    hide Raster;
    AtIs(0, image.width, 0, 0);
    RasterShowsFrom(image, image.width, 0, 0, x, y, At(0, image.width, y, x));
  }

  lemma {:induction false} SamePixelsFrom(a: Image, b: Image, x0: nat, y0: nat)
    requires a.Valid() && b.Valid() && a.width == b.width && a.height == b.height && x0 < a.width && y0 < a.height
    requires forall x, y :: 0 <= x < a.width && 0 <= y < a.height ==> a.Pixel(x, y) == b.Pixel(x, y)
    ensures Raster(a, x0, y0) == Raster(b, x0, y0)
    decreases a.height - y0, a.width - x0
  {
    hide *;
    RasterStep(a, x0, y0);
    RasterStep(b, x0, y0);
    if x0 + 1 < a.width {
      SamePixelsFrom(a, b, x0 + 1, y0);
    } else if y0 + 1 < a.height {
      SamePixelsFrom(a, b, 0, y0 + 1);
    }
  }

  /**
   Where no colour is clamped the raster tells every sample a pixel is made of: two images, subsampled
   or not and shifted or not, look the same exactly when all their pixels have the same samples.
   */
  lemma RastersAreEqual(a: Image, b: Image)
    requires a.Valid() && b.Valid() && a.width == b.width && a.height == b.height
    requires forall x, y :: 0 <= x < a.width && 0 <= y < a.height ==> a.Unsaturated(x, y) && b.Unsaturated(x, y)
    ensures Raster(a, 0, 0) == Raster(b, 0, 0) <==>
            forall x, y :: 0 <= x < a.width && 0 <= y < a.height ==> a.Samples(x, y) == b.Samples(x, y)
  {
    hide Raster, PlaneLayout, Image.Pixel, Image.Samples, Image.Unsaturated;
    forall x, y | 0 <= x < a.width && 0 <= y < a.height
      ensures a.Pixel(x, y) == b.Pixel(x, y) <==> a.Samples(x, y) == b.Samples(x, y)
      ensures Raster(a, 0, 0) == Raster(b, 0, 0) ==> a.Pixel(x, y) == b.Pixel(x, y)
    {
      PixelTells(a, b, x, y);
      RasterShows(a, x, y);
      RasterShows(b, x, y);
    }
    if a.width > 0 && a.height > 0 {
      if forall x, y :: 0 <= x < a.width && 0 <= y < a.height ==> a.Samples(x, y) == b.Samples(x, y) {
        SamePixelsFrom(a, b, 0, 0);
      }
    } else {
      RasterSize(a);
      RasterSize(b);
      AtIs(0, a.width, a.height, 0);
    }
  }

  /** Once the planes are decoded, nothing can fail any more. */
  method Decompress(data: seq<Byte>, width: U16, height: U16) returns (r: Result<seq<Bgr>>)
    ensures r.Ok? <==> DecodeBitmap(data, width, height).Ok?
    ensures r.Ok? ==> r.value == Raster(DecodeBitmap(data, width, height).value, 0, 0)
  {
    hide DecodePlanes, PlaneLayout, Word, Raster;
    if |data| < HEADER {
      return Err;
    }
    var counts := Counts(data);
    var colorLossLevel := data[16];
    if !(1 <= colorLossLevel <= 7) {
      return Err;
    }
    var image := Image(width, height, data[17] != 0, colorLossLevel - 1, []);
    var planes := DecodeFourPlanes(data, counts, image.Sizes());
    if planes.Err? {
      return Err;
    }
    image := image.(planes := planes.value);
    var pixels := Render(image);
    return Ok(pixels);
  }

  /** The pixels in reading order, so that pixel (x, y) is written to index y * width + x. */
  method Render(image: Image) returns (pixels: seq<Bgr>)
    requires image.Valid()
    ensures pixels == Raster(image, 0, 0)
  {
    hide Raster, RasterRest, PlaneLayout, Convert, Chroma, LumaIndex, ChromaIndex;
    ghost var all := Raster(image, 0, 0);
    pixels := [];
    for y := 0 to image.height
      invariant pixels + Raster(image, 0, y) == all
    {
      RasterEmpty(image, y);
      RestAtEnd(image, y);
      for x := 0 to image.width
        invariant pixels + RasterRest(image, x, y) == all
      {
        RestStep(image, x, y);
        SetBehind(pixels, image.Pixel(x, y), RasterRest(image, x + 1, y));
        pixels := pixels + [PixelOf(image, x, y)];
      }
    }
    RasterEnds(image);
  }

  ghost function RasterRest(image: Image, x: nat, y: nat): seq<Bgr>
    requires image.Valid()
  {
    if x < image.width then Raster(image, x, y) else Raster(image, 0, y + 1)
  }

  lemma RestStep(image: Image, x: nat, y: nat)
    requires image.Valid() && x < image.width && y < image.height
    ensures RasterRest(image, x, y) == [image.Pixel(x, y)] + RasterRest(image, x + 1, y)
  {
  }

  lemma RestAtEnd(image: Image, y: nat)
    requires image.Valid()
    ensures RasterRest(image, image.width, y) == Raster(image, 0, y + 1)
    ensures image.width > 0 ==> RasterRest(image, 0, y) == Raster(image, 0, y)
  {
  }

  lemma SetBehind(before: seq<Bgr>, p: Bgr, rest: seq<Bgr>)
    ensures before + [p] + rest == before + ([p] + rest)
  {
  }

  lemma RasterEnds(image: Image)
    requires image.Valid()
    ensures Raster(image, 0, image.height) == []
  {
  }

  lemma RasterEmpty(image: Image, y: nat)
    requires image.Valid()
    ensures image.width == 0 ==> Raster(image, 0, y) == Raster(image, 0, y + 1) == RasterRest(image, 0, y)
  {
  }

  /** The colour of one pixel, every sample index being inside its plane. */
  function PixelOf(image: Image, x: nat, y: nat): (p: Bgr)
    requires image.Valid() && x < image.width && y < image.height
    ensures p == image.Pixel(x, y)
  {
    IndexesInRange(image.width, image.height, image.subsampling, x, y);
    var layout := image.Shape();
    var lumaRow := y * layout.lumaStride;
    var chromaRow := if image.subsampling then y / 2 * layout.chromaStride else y * layout.chromaStride;
    var chroma := chromaRow + if image.subsampling then x / 2 else x;
    Convert(image.planes[0][lumaRow + x], Chroma(image.planes[1][chroma], image.shift), Chroma(image.planes[2][chroma], image.shift))
  }
}
