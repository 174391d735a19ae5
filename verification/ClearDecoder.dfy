/** `clearcodec.rs`: the decoder with its caches, proved against modules VBars, ClearLayers and ClearCodec. */
module ClearDecoder {
  import opened Machine
  import opened Grid
  import opened Pixels
  import opened Canvas
  import opened Bytes
  import opened Surfaces
  import V = VBars
  import opened ClearLayers
  import C = ClearCodec
  import NsImage
  import NsDecoder

  method ReadBgr(r: ByteReader) returns (c: Option<Bgr>)
    requires r.Valid()
    modifies r
    ensures r.Valid()
    ensures c.None? <==> V.ReadBgr(r.data, old(r.pos)).None?
    ensures c.Some? ==> V.ReadBgr(r.data, old(r.pos)) == Some((c.value, r.pos))
  {
    var b := r.U8();
    if b.None? {
      return None;
    }
    var g := r.U8();
    if g.None? {
      return None;
    }
    var red := r.U8();
    if red.None? {
      return None;
    }
    return Some(Bgr(b.value, g.value, red.value));
  }

  method ReadRun(r: ByteReader) returns (n: Option<U32>)
    requires r.Valid()
    modifies r
    ensures r.Valid()
    ensures n.None? <==> ReadRunLength(r.data, old(r.pos)).None?
    ensures n.Some? ==> ReadRunLength(r.data, old(r.pos)) == Some((n.value, r.pos))
  {
    hide ReadU8, ReadU16, ReadU32;
    var f1 := r.U8();
    if f1.None? {
      return None;
    }
    if f1.value < 0xFF {
      return Some(f1.value);
    }
    var f2 := r.U16();
    if f2.None? {
      return None;
    }
    if f2.value < 0xFFFF {
      return Some(f2.value);
    }
    var f3 := r.U32();
    if f3.None? {
      return None;
    }
    return Some(f3.value);
  }

  method ReadPixelList(r: ByteReader, n: nat) returns (pixels: Option<seq<Bgr>>)
    requires r.Valid()
    modifies r
    ensures r.Valid()
    ensures pixels.None? <==> V.ReadPixels(r.data, old(r.pos), n).None?
    ensures pixels.Some? ==> V.ReadPixels(r.data, old(r.pos), n) == Some((pixels.value, r.pos))
  {
    hide V.ReadBgr, V.ReadPixels;
    var list: seq<Bgr> := [];
    ghost var all := V.ReadPixels(r.data, r.pos, n);
    for i := 0 to n
      invariant r.Valid()
      invariant all.None? <==> V.ReadPixels(r.data, r.pos, n - i).None?
      invariant all.Some? ==>
                  && all.value.0 == list + V.ReadPixels(r.data, r.pos, n - i).value.0
                  && all.value.1 == V.ReadPixels(r.data, r.pos, n - i).value.1
    {
      PixelsStep(r.data, r.pos, n - i);
      var c := ReadBgr(r);
      if c.None? {
        return None;
      }
      list := list + [c.value];
    }
    PixelsEnd(r.data, r.pos);
    assert list + [] == list;
    return Some(list);
  }

  lemma PixelsStep(data: seq<Byte>, p: nat, n: nat)
    requires n > 0
    ensures V.ReadBgr(data, p).None? ==> V.ReadPixels(data, p, n) == None
    ensures V.ReadBgr(data, p).Some? ==>
              var (c, q) := V.ReadBgr(data, p).value;
              V.ReadPixels(data, p, n) ==
              match V.ReadPixels(data, q, n - 1)
              case None => None
              case Some((more, end)) => Some(([c] + more, end))
  {
    hide V.ReadBgr;
  }

  lemma PixelsEnd(data: seq<Byte>, p: nat)
    ensures V.ReadPixels(data, p, 0) == Some(([], p))
  {
  }

  // ---------- Residual ----------

  lemma ResidualStep(data: seq<Byte>, p: nat, at: nat, tile: V.Tile)
    requires at < |tile| && p < |data|
    ensures V.ReadBgr(data, p).None? ==> DecodeResidual(data, p, at, tile) == None
    ensures V.ReadBgr(data, p).Some? ==>
              var (c, q) := V.ReadBgr(data, p).value;
              DecodeResidual(data, p, at, tile) ==
              match ReadRunLength(data, q)
              case None => None
              case Some((run, next)) => DecodeResidual(data, next, Min(at + run, |tile|), FillRun(tile, at, c, run))
  {
    hide V.ReadBgr, ReadRunLength, FillRun;
  }

  lemma ResidualEnd(data: seq<Byte>, p: nat, at: nat, tile: V.Tile)
    requires at <= |tile| && (at == |tile| || p >= |data|)
    ensures DecodeResidual(data, p, at, tile) == Some(tile)
  {
  }

  method FillCells(tile: array<Bgr>, at: nat, c: Bgr, run: nat) returns (idx: nat)
    requires at <= tile.Length
    modifies tile
    ensures tile[..] == FillRun(old(tile[..]), at, c, run) && idx == Min(at + run, tile.Length)
  {
    idx := at;
    var k: nat := 0;
    while k < run
      invariant k <= run && idx == at + k <= tile.Length
      invariant forall i :: 0 <= i < tile.Length ==> tile[i] == if at <= i < idx then c else old(tile[i])
    {
      if idx >= tile.Length {
        break;
      }
      tile[idx] := c;
      idx := idx + 1;
      k := k + 1;
    }
  }

  method DecodeResidualLayer(data: seq<Byte>, tile: array<Bgr>) returns (ok: bool)
    modifies tile
    ensures ok <==> DecodeResidual(data, 0, 0, old(tile[..])).Some?
    ensures ok ==> DecodeResidual(data, 0, 0, old(tile[..])) == Some(tile[..])
  {
    hide V.ReadBgr, ReadRunLength, FillRun, DecodeResidual;
    var r := new ByteReader(data);
    var idx: nat := 0;
    while r.Remaining() > 0 && idx < tile.Length
      invariant r.Valid() && r.data == data && idx <= tile.Length
      invariant DecodeResidual(data, 0, 0, old(tile[..])) == DecodeResidual(data, r.pos, idx, tile[..])
      decreases |data| - r.pos
    {
      ResidualStep(data, r.pos, idx, tile[..]);
      var color := ReadBgr(r);
      if color.None? {
        return false;
      }
      var run := ReadRun(r);
      if run.None? {
        return false;
      }
      idx := FillCells(tile, idx, color.value, run.value);
    }
    ResidualEnd(data, r.pos, idx, tile[..]);
    return true;
  }

  // ---------- Painting into the tile ----------

  method SetTilePixel(tile: array<Bgr>, w: nat, h: nat, x: nat, y: nat, p: Bgr)
    requires tile.Length == At(0, w, h, 0)
    modifies tile
    ensures tile[..] == V.SetPixel(old(tile[..]), w, h, x, y, p)
  {
    if x >= w || y >= h {
      return;
    }
    AtInside(0, w, h, y, x);
    tile[At(0, w, y, x)] := p;
  }

  method PaintBar(tile: array<Bgr>, w: nat, h: nat, x: nat, y: nat, bar: V.Bar)
    requires tile.Length == At(0, w, h, 0)
    modifies tile
    ensures tile[..] == V.PaintColumn(old(tile[..]), w, h, x, y, bar)
  {
    hide V.SetPixel, V.PaintColumn, At;
    assert bar[0..] == bar;
    for i := 0 to |bar|
      invariant V.PaintColumn(old(tile[..]), w, h, x, y, bar) == V.PaintColumn(tile[..], w, h, x, y + i, bar[i..])
    {
      ColumnStep(tile[..], w, h, x, y + i, bar[i..]);
      assert bar[i..][1..] == bar[i + 1..];
      SetTilePixel(tile, w, h, x, y + i, bar[i]);
    }
    ColumnEnd(tile[..], w, h, x, y + |bar|, bar[|bar|..]);
  }

  lemma ColumnStep(tile: V.Tile, w: nat, h: nat, x: nat, y: nat, bar: V.Bar)
    requires |tile| == At(0, w, h, 0) && bar != []
    ensures V.PaintColumn(tile, w, h, x, y, bar) == V.PaintColumn(V.SetPixel(tile, w, h, x, y, bar[0]), w, h, x, y + 1, bar[1..])
  {
  }

  lemma ColumnEnd(tile: V.Tile, w: nat, h: nat, x: nat, y: nat, bar: V.Bar)
    requires |tile| == At(0, w, h, 0) && bar == []
    ensures V.PaintColumn(tile, w, h, x, y, bar) == tile
  {
  }

  /** Paints pixels row by row, the way raw rectangles and NSCodec bitmaps are painted. */
  method PaintRows(tile: array<Bgr>, w: nat, h: nat, x0: nat, y0: nat, width: nat, height: nat, pixels: seq<Bgr>)
    requires tile.Length == At(0, w, h, 0) && |pixels| == At(0, width, height, 0)
    modifies tile
    ensures tile[..] == PaintRect(old(tile[..]), w, h, x0, y0, width, 0, 0, pixels)
  {
    hide V.SetPixel, PaintRect, At;
    AtIs(0, width, 0, 0);
    assert pixels[0..] == pixels;
    for y := 0 to height
      invariant At(0, width, y, 0) <= |pixels|
      invariant PaintRect(old(tile[..]), w, h, x0, y0, width, 0, 0, pixels)
             == PaintRect(tile[..], w, h, x0, y0, width, 0, y, pixels[At(0, width, y, 0)..])
    {
      AtInside0(width, height, y);
      ZeroWidth(width, height, y);
      PaintOneRow(tile, w, h, x0, y0, width, y, pixels, At(0, width, y, 0));
    }
    assert pixels[|pixels|..] == [];
    RectEnd(tile[..], w, h, x0, y0, width, 0, height);
  }

  lemma ZeroWidth(width: nat, height: nat, y: nat)
    ensures width == 0 ==> At(0, width, y, 0) == At(0, width, height, 0)
  {
    AtIs(0, width, y, 0);
    AtIs(0, width, height, 0);
  }

  lemma AtInside0(width: nat, height: nat, y: nat)
    requires y < height
    ensures At(0, width, y + 1, 0) == At(0, width, y, 0) + width <= At(0, width, height, 0)
  {
    AtCol(0, width, y, 0);
    RowsGrow(width, y + 1, height);
  }

  lemma RectStep(tile: V.Tile, w: nat, h: nat, x0: nat, y0: nat, width: nat, cx: nat, cy: nat, pixels: seq<Bgr>)
    requires |tile| == At(0, w, h, 0) && pixels != []
    ensures PaintRect(tile, w, h, x0, y0, width, cx, cy, pixels)
         == PaintRect(V.SetPixel(tile, w, h, x0 + cx, y0 + cy, pixels[0]), w, h, x0, y0, width,
                      if cx + 1 < width then cx + 1 else 0, if cx + 1 < width then cy else cy + 1, pixels[1..])
  {
  }

  lemma RectEnd(tile: V.Tile, w: nat, h: nat, x0: nat, y0: nat, width: nat, cx: nat, cy: nat)
    requires |tile| == At(0, w, h, 0)
    ensures PaintRect(tile, w, h, x0, y0, width, cx, cy, []) == tile
  {
  }

  method PaintOneRow(tile: array<Bgr>, w: nat, h: nat, x0: nat, y0: nat, width: nat, y: nat, pixels: seq<Bgr>, start: nat)
    requires tile.Length == At(0, w, h, 0) && start + width <= |pixels| && (width == 0 ==> start == |pixels|)
    modifies tile
    ensures PaintRect(old(tile[..]), w, h, x0, y0, width, 0, y, pixels[start..])
         == PaintRect(tile[..], w, h, x0, y0, width, 0, y + 1, pixels[start + width..])
  {
    hide V.SetPixel, PaintRect, At;
    if width == 0 {
      assert pixels[start..] == [];
      RectEnd(tile[..], w, h, x0, y0, width, 0, y);
      RectEnd(tile[..], w, h, x0, y0, width, 0, y + 1);
    }
    for x := 0 to width
      invariant PaintRect(old(tile[..]), w, h, x0, y0, width, 0, y, pixels[start..])
             == if x < width then PaintRect(tile[..], w, h, x0, y0, width, x, y, pixels[start + x..])
                else PaintRect(tile[..], w, h, x0, y0, width, 0, y + 1, pixels[start + x..])
    {
      RectStep(tile[..], w, h, x0, y0, width, x, y, pixels[start + x..]);
      assert pixels[start + x..][1..] == pixels[start + x + 1..];
      SetTilePixel(tile, w, h, x0 + x, y0 + y, pixels[start + x]);
    }
  }

  // ---------- Palette suites ----------

  lemma NextIndex(idx: nat, width: nat)
    requires width > 0
    ensures idx % width + 1 < width ==> (idx + 1) % width == idx % width + 1 && (idx + 1) / width == idx / width
    ensures idx % width + 1 == width ==> (idx + 1) % width == 0 && (idx + 1) / width == idx / width + 1
    ensures idx % width < width
  {
    var q, r := idx / width, idx % width;
    assert idx == width * q + r;
    if r + 1 < width {
      SmallRemainder(r + 1, q, width, idx + 1);
    } else {
      assert width * (q + 1) == width * q + width;
      SmallRemainder(0, q + 1, width, idx + 1);
    }
  }

  /** The rectangle's pixels from number `idx` on, in reading order. */
  ghost function PaintFrom(tile: V.Tile, w: nat, h: nat, x0: nat, y0: nat, width: nat, idx: nat, pixels: seq<Bgr>): (r: V.Tile)
    requires |tile| == At(0, w, h, 0) && width > 0
    ensures |r| == |tile|
  {
    PaintRect(tile, w, h, x0, y0, width, idx % width, idx / width, pixels)
  }

  method PaintIndex(tile: array<Bgr>, w: nat, h: nat, x0: nat, y0: nat, width: nat, idx: nat, c: Bgr, ghost pixels: seq<Bgr>)
    requires tile.Length == At(0, w, h, 0) && width > 0 && pixels != [] && pixels[0] == c
    modifies tile
    ensures PaintFrom(old(tile[..]), w, h, x0, y0, width, idx, pixels) == PaintFrom(tile[..], w, h, x0, y0, width, idx + 1, pixels[1..])
  {
    hide V.SetPixel, PaintRect, At;
    var x: nat, y: nat := idx % width, idx / width;
    NextIndex(idx, width);
    RectStep(tile[..], w, h, x0, y0, width, x, y, pixels);
    SetTilePixel(tile, w, h, x0 + x, y0 + y, c);
  }

  lemma ExpandedAt(s: Suite, palette: seq<Bgr>, left: nat, k: nat)
    requires s.start <= s.stop < |palette| && k < |Take(Expanded(s, palette), left)|
    ensures Take(Expanded(s, palette), left)[k] == if k < s.run then palette[s.start] else palette[s.start + (k - s.run)]
    ensures k < s.run as int + (s.stop - s.start + 1)
  {
  }

  lemma ExpandedSize(s: Suite, palette: seq<Bgr>, left: nat)
    requires s.start <= s.stop < |palette|
    ensures |Take(Expanded(s, palette), left)| == Min(s.run as int + (s.stop - s.start + 1), left)
  {
  }

  method PaintSuite(tile: array<Bgr>, w: nat, h: nat, x0: nat, y0: nat, width: nat, count: nat, from: nat,
                    palette: seq<Bgr>, suite: Suite, ghost rest: seq<Bgr>)
    returns (idx: nat)
    requires tile.Length == At(0, w, h, 0) && width > 0 && from <= count && suite.start <= suite.stop < |palette|
    modifies tile
    ensures var pixels := Take(Expanded(suite, palette), count - from);
            && idx == from + |pixels|
            && PaintFrom(old(tile[..]), w, h, x0, y0, width, from, pixels + rest) == PaintFrom(tile[..], w, h, x0, y0, width, idx, rest)
  {
    hide PaintFrom, Take, Expanded, At;
    ghost var pixels := Take(Expanded(suite, palette), count - from);
    ghost var all := pixels + rest;
    ExpandedSize(suite, palette, count - from);
    idx := from;
    assert all[0..] == all;
    var k: nat := 0;
    while k < suite.run
      invariant k <= suite.run && idx == from + k <= count
      invariant PaintFrom(old(tile[..]), w, h, x0, y0, width, from, all) == PaintFrom(tile[..], w, h, x0, y0, width, idx, all[idx - from..])
    {
      if idx >= count {
        break;
      }
      ExpandedAt(suite, palette, count - from, k);
      PaintIndex(tile, w, h, x0, y0, width, idx, palette[suite.start], all[k..]);
      assert all[k..][1..] == all[k + 1..];
      idx := idx + 1;
      k := k + 1;
    }
    var i: nat := suite.start;
    while i <= suite.stop
      invariant suite.start <= i <= suite.stop + 1 && idx <= count
      invariant (idx == count && i == suite.start && count <= from + suite.run) || idx == from + suite.run + (i - suite.start)
      invariant PaintFrom(old(tile[..]), w, h, x0, y0, width, from, all) == PaintFrom(tile[..], w, h, x0, y0, width, idx, all[idx - from..])
    {
      if idx >= count {
        break;
      }
      k := idx - from;
      ExpandedAt(suite, palette, count - from, k);
      PaintIndex(tile, w, h, x0, y0, width, idx, palette[i], all[k..]);
      assert all[k..][1..] == all[k + 1..];
      idx := idx + 1;
      i := i + 1;
    }
    assert all[|pixels|..] == rest;
  }

  lemma SuitesStep(data: seq<Byte>, p: nat, palette: seq<Bgr>, left: nat)
    requires p < |data| && left > 0
    ensures ReadSuite(data, p, palette).None? ==> DecodeSuites(data, p, palette, left) == None
    ensures ReadSuite(data, p, palette).Some? ==>
              var (suite, next) := ReadSuite(data, p, palette).value;
              var pixels := Take(Expanded(suite, palette), left);
              DecodeSuites(data, p, palette, left) ==
              match DecodeSuites(data, next, palette, left - |pixels|)
              case None => None
              case Some(more) => Some(pixels + more)
  {
    hide ReadSuite, Expanded, Take;
  }

  lemma SuitesEnd(data: seq<Byte>, p: nat, palette: seq<Bgr>, left: nat)
    requires p >= |data| || left == 0
    ensures DecodeSuites(data, p, palette, left) == Some([])
  {
  }

  method NextSuite(r: ByteReader, palette: seq<Bgr>) returns (s: Option<Suite>)
    requires r.Valid()
    modifies r
    ensures r.Valid()
    ensures s.None? <==> ReadSuite(r.data, old(r.pos), palette).None?
    ensures s.Some? ==> ReadSuite(r.data, old(r.pos), palette) == Some((s.value, r.pos))
  {
    hide ReadU8, ReadRunLength, SuiteOf;
    var byte := r.U8();
    if byte.None? {
      return None;
    }
    var run := ReadRun(r);
    if run.None? {
      return None;
    }
    return SuiteOf(byte.value, run.value, palette);
  }

  method DecodeRlexInto(data: seq<Byte>, width: nat, height: nat, w: nat, h: nat, tile: array<Bgr>, x0: nat, y0: nat) returns (ok: bool)
    requires tile.Length == At(0, w, h, 0)
    modifies tile
    ensures ok <==> DecodeRlex(data, width * height).Some?
    ensures ok ==> tile[..] == PaintRect(old(tile[..]), w, h, x0, y0, width, 0, 0, DecodeRlex(data, width * height).value)
  {
    hide ReadU8, V.ReadPixels, DecodeSuites, PaintRect, At;
    var r := new ByteReader(data);
    var paletteCount := r.U8();
    if paletteCount.None? || paletteCount.value > MAX_PALETTE {
      return false;
    }
    var palette := ReadPixelList(r, paletteCount.value);
    if palette.None? {
      return false;
    }
    ok := PaintSuites(r, palette.value, width, height, w, h, tile, x0, y0);
  }

  method PaintSuites(r: ByteReader, palette: seq<Bgr>, width: nat, height: nat, w: nat, h: nat, tile: array<Bgr>, x0: nat, y0: nat)
    returns (ok: bool)
    requires tile.Length == At(0, w, h, 0) && r.Valid()
    modifies r, tile
    ensures ok <==> DecodeSuites(r.data, old(r.pos), palette, width * height).Some?
    ensures ok ==>
              tile[..] == PaintRect(old(tile[..]), w, h, x0, y0, width, 0, 0,
                                    DecodeSuites(r.data, old(r.pos), palette, width * height).value)
  {
    hide ReadSuite, DecodeSuites, PaintRect, Take, Expanded, At;
    var pixelCount := width * height;
    if width == 0 {
      assert pixelCount == 0;
      SuitesEnd(r.data, r.pos, palette, 0);
      RectEnd(tile[..], w, h, x0, y0, width, 0, 0);
      return true;
    }
    var idx: nat := 0;
    ghost var all := DecodeSuites(r.data, r.pos, palette, pixelCount);
    SmallRemainder(0, 0, width, 0);
    while r.Remaining() > 0 && idx < pixelCount
      invariant r.Valid() && idx <= pixelCount
      invariant all.None? <==> DecodeSuites(r.data, r.pos, palette, pixelCount - idx).None?
      invariant all.Some? ==>
                  PaintFrom(old(tile[..]), w, h, x0, y0, width, 0, all.value)
                  == PaintFrom(tile[..], w, h, x0, y0, width, idx, DecodeSuites(r.data, r.pos, palette, pixelCount - idx).value)
      decreases |r.data| - r.pos
    {
      SuitesStep(r.data, r.pos, palette, pixelCount - idx);
      var suite := NextSuite(r, palette);
      if suite.None? {
        return false;
      }
      ghost var rest := DecodeSuites(r.data, r.pos, palette, pixelCount - idx - |Take(Expanded(suite.value, palette), pixelCount - idx)|);
      idx := PaintSuite(tile, w, h, x0, y0, width, pixelCount, idx, palette, suite.value, if rest.Some? then rest.value else []);
    }
    SuitesEnd(r.data, r.pos, palette, pixelCount - idx);
    RectEnd(tile[..], w, h, x0, y0, width, idx % width, idx / width);
    return true;
  }

  // ---------- Subcodecs ----------

  lemma SubcodecsStep(data: seq<Byte>, p: nat, tile: V.Tile, w: nat, h: nat)
    requires |tile| == At(0, w, h, 0) && p < |data|
    ensures ReadSubrect(data, p).None? ==> DecodeSubcodecs(data, p, tile, w, h) == None
    ensures ReadSubrect(data, p).Some? ==>
              var (s, next) := ReadSubrect(data, p).value;
              DecodeSubcodecs(data, p, tile, w, h) ==
              match SubrectPixels(s)
              case None => None
              case Some(pixels) => DecodeSubcodecs(data, next, PaintRect(tile, w, h, s.x, s.y, s.width, 0, 0, pixels), w, h)
  {
    hide ReadSubrect, SubrectPixels, PaintRect;
  }

  lemma SubcodecsEnd(data: seq<Byte>, p: nat, tile: V.Tile, w: nat, h: nat)
    requires |tile| == At(0, w, h, 0) && p >= |data|
    ensures DecodeSubcodecs(data, p, tile, w, h) == Some(tile)
  {
  }

  method NextSubrect(r: ByteReader) returns (s: Option<Subrect>)
    requires r.Valid()
    modifies r
    ensures r.Valid()
    ensures s.None? <==> ReadSubrect(r.data, old(r.pos)).None?
    ensures s.Some? ==> ReadSubrect(r.data, old(r.pos)) == Some((s.value, r.pos))
  {
    hide ReadU8, ReadU16, ReadU32, ReadBytes;
    var x := r.U16();
    if x.None? {
      return None;
    }
    var y := r.U16();
    if y.None? {
      return None;
    }
    var width := r.U16();
    if width.None? {
      return None;
    }
    var height := r.U16();
    if height.None? {
      return None;
    }
    var length := r.U32();
    if length.None? {
      return None;
    }
    var id := r.U8();
    if id.None? {
      return None;
    }
    var bitmap := r.Bytes(length.value);
    if bitmap.None? {
      return None;
    }
    return Some(Subrect(x.value, y.value, width.value, height.value, id.value, bitmap.value));
  }

  method DecodeRaw(s: Subrect, w: nat, h: nat, tile: array<Bgr>) returns (ok: bool)
    requires tile.Length == At(0, w, h, 0) && s.id == UNCOMPRESSED
    modifies tile
    ensures ok <==> SubrectPixels(s).Some?
    ensures ok ==> tile[..] == PaintRect(old(tile[..]), w, h, s.x, s.y, s.width, 0, 0, SubrectPixels(s).value)
  {
    hide V.ReadPixels, PaintRect, At;
    if |s.bitmap| != s.width * s.height * 3 {
      return false;
    }
    var r := new ByteReader(s.bitmap);
    var pixels := ReadPixelList(r, s.width * s.height);
    if pixels.None? {
      return false;
    }
    AtIs(0, s.width, s.height, 0);
    PaintRows(tile, w, h, s.x, s.y, s.width, s.height, pixels.value);
    return true;
  }

  method DecodeNsCodec(s: Subrect, w: nat, h: nat, tile: array<Bgr>) returns (ok: bool)
    requires tile.Length == At(0, w, h, 0) && s.id == NSCODEC
    modifies tile
    ensures ok <==> SubrectPixels(s).Some?
    ensures ok ==> tile[..] == PaintRect(old(tile[..]), w, h, s.x, s.y, s.width, 0, 0, SubrectPixels(s).value)
  {
    hide NsImage.DecodeBitmap, NsImage.Raster, PaintRect, At;
    var pixels := NsDecoder.Decompress(s.bitmap, s.width, s.height);
    if pixels.Err? {
      return false;
    }
    NsDecoder.RasterSize(NsImage.DecodeBitmap(s.bitmap, s.width, s.height).value);
    PaintRows(tile, w, h, s.x, s.y, s.width, s.height, pixels.value);
    return true;
  }

  method DecodeSubrect(s: Subrect, w: nat, h: nat, tile: array<Bgr>) returns (ok: bool)
    requires tile.Length == At(0, w, h, 0)
    modifies tile
    ensures ok <==> SubrectPixels(s).Some?
    ensures ok ==> tile[..] == PaintRect(old(tile[..]), w, h, s.x, s.y, s.width, 0, 0, SubrectPixels(s).value)
  {
    hide DecodeRlex, NsImage.DecodeBitmap, NsImage.Raster, V.ReadPixels, PaintRect, At;
    if s.id == UNCOMPRESSED {
      ok := DecodeRaw(s, w, h, tile);
    } else if s.id == RLEX {
      ok := DecodeRlexInto(s.bitmap, s.width, s.height, w, h, tile, s.x, s.y);
    } else if s.id == NSCODEC {
      ok := DecodeNsCodec(s, w, h, tile);
    } else {
      ok := false;
    }
  }

  method DecodeSubcodecLayer(data: seq<Byte>, w: nat, h: nat, tile: array<Bgr>) returns (ok: bool)
    requires tile.Length == At(0, w, h, 0)
    modifies tile
    ensures ok <==> DecodeSubcodecs(data, 0, old(tile[..]), w, h).Some?
    ensures ok ==> DecodeSubcodecs(data, 0, old(tile[..]), w, h) == Some(tile[..])
  {
    hide ReadSubrect, SubrectPixels, PaintRect, DecodeSubcodecs, At;
    var r := new ByteReader(data);
    while r.Remaining() > 0
      invariant r.Valid() && r.data == data
      invariant DecodeSubcodecs(data, 0, old(tile[..]), w, h) == DecodeSubcodecs(data, r.pos, tile[..], w, h)
      decreases |data| - r.pos
    {
      SubcodecsStep(data, r.pos, tile[..], w, h);
      var s := NextSubrect(r);
      if s.None? {
        return false;
      }
      var done := DecodeSubrect(s.value, w, h, tile);
      if !done {
        return false;
      }
    }
    SubcodecsEnd(data, r.pos, tile[..], w, h);
    return true;
  }

  // ---------- Drawing on the surface ----------

  /** What the surface shows once the pixels before (px, py) of the tile have been drawn. */
  ghost predicate DrawnTo(now: Canvas, was: Canvas, dx: nat, dy: nat, w: nat, src: Rows<Pixel>, px: nat, py: nat)
    requires now.Valid() && was.Valid() && Wide(src, w)
  {
    && now.width == was.width && now.height == was.height
    && forall y: nat, x: nat :: y < was.height && x < was.width ==>
         now.rows[y][x] ==
         if InRect(Rect(dx, dy, w, |src|), x, y) && (y - dy < py || (y - dy == py && x - dx < px)) then src[y - dy][x - dx]
         else was.rows[y][x]
  }

  lemma DrawnPixel(now: Canvas, was: Canvas, dx: nat, dy: nat, w: nat, src: Rows<Pixel>, px: nat, py: nat)
    requires now.Valid() && was.Valid() && Wide(src, w) && px < w && py < |src|
    requires DrawnTo(now, was, dx, dy, w, src, px, py)
    ensures DrawnTo(Filled(now, Rect(dx + px, dy + py, 1, 1), src[py][px]), was, dx, dy, w, src, px + 1, py)
  {
    FillsRect(now, Rect(dx + px, dy + py, 1, 1), src[py][px]);
    hide Filled;
  }

  lemma DrawnAll(now: Canvas, was: Canvas, dx: nat, dy: nat, w: nat, src: Rows<Pixel>, py: nat)
    requires now.Valid() && was.Valid() && Wide(src, w) && py == |src|
    requires DrawnTo(now, was, dx, dy, w, src, 0, py)
    ensures now == Blitted(was, dx, dy, w, src)
  {
    var goal := Blitted(was, dx, dy, w, src);
    BlitsRect(was, dx, dy, w, src);
    hide Blitted;
    SameRows(now.rows, goal.rows, was.width);
  }

  /** What drawing a decoded tile does to a surface: nothing when there is no tile. */
  ghost predicate Drew(tile: Option<V.Tile>, before: Canvas, after: Canvas, dx: nat, dy: nat, w: nat, h: nat,
                       outcome: Option<WriteOutcome>)
    requires tile.Some? ==> |tile.value| >= At(0, w, h, 0)
  {
    match tile
    case None => outcome.None? && after == before
    case Some(bgr) =>
      && after == Blitted(before, dx, dy, w, OpaqueRows(bgr, w, h))
      && outcome == Some(WriteOutcome(w * h, Visible(after, Rect(dx, dy, w, h)), false))
  }

  lemma DrewNothing(before: Canvas, dx: nat, dy: nat, w: nat, h: nat)
    ensures Drew(None, before, before, dx, dy, w, h, None)
  {
  }

  lemma DrewTile(bgr: V.Tile, before: Canvas, after: Canvas, dx: nat, dy: nat, w: nat, h: nat, outcome: WriteOutcome)
    requires |bgr| >= At(0, w, h, 0)
    requires after == Blitted(before, dx, dy, w, OpaqueRows(bgr, w, h))
    requires outcome == WriteOutcome(w * h, Visible(after, Rect(dx, dy, w, h)), false)
    ensures Drew(Some(bgr), before, after, dx, dy, w, h, Some(outcome))
  {
  }

  /** The rectangle's pixels: those the buffer has, and where it has none what the surface shows anyway. */
  function HeldRows(was: Canvas, dx: nat, dy: nat, w: nat, h: nat, bgr: seq<Bgr>): (rows: Rows<Pixel>)
    requires was.Valid()
    ensures |rows| == h && Wide(rows, w)
  {
    seq(h, y requires 0 <= y < h =>
      seq(w, x requires 0 <= x < w =>
        if At(0, w, y, x) < |bgr| then Opaque(bgr[At(0, w, y, x)]) else PixelOr(was, dx + x, dy + y)))
  }

  /** How many pixels of row `y` a buffer of `size` pixels has. */
  function HeldInRow(w: nat, size: nat, y: nat): (n: nat)
    ensures n <= w
  {
    if size <= At(0, w, y, 0) then 0 else Min(w, size - At(0, w, y, 0))
  }

  /** How many of the buffer's pixels lie on the surface. */
  function HeldVisible(c: Canvas, dx: nat, dy: nat, w: nat, h: nat, size: nat): nat {
    if h == 0 then 0
    else HeldVisible(c, dx, dy, w, h - 1, size) + (if dy + (h - 1) < c.height then Covered(dx, HeldInRow(w, size, h - 1), c.width) else 0)
  }

  /** A buffer that has every pixel is drawn whole. */
  lemma {:induction false} HeldWhole(c: Canvas, dx: nat, dy: nat, w: nat, h: nat, bgr: seq<Bgr>)
    requires At(0, w, h, 0) <= |bgr| && c.Valid()
    ensures HeldRows(c, dx, dy, w, h, bgr) == OpaqueRows(bgr, w, h)
    ensures var after := Blitted(c, dx, dy, w, OpaqueRows(bgr, w, h));
            HeldVisible(c, dx, dy, w, h, |bgr|) == Visible(after, Rect(dx, dy, w, h)) && |bgr| >= w * h
  {
    hide At, HeldVisible, Blitted, BlittedRow;
    var a, b := HeldRows(c, dx, dy, w, h, bgr), OpaqueRows(bgr, w, h);
    forall y, x | 0 <= y < h && 0 <= x < w
      ensures a[y][x] == b[y][x]
    {
      OpaqueCell(bgr, w, h, x, y);
    }
    SameRows(a, b, w);
    HeldCount(c, dx, dy, w, h, |bgr|);
    VisibleIs(c, Rect(dx, dy, w, h));
    AtIs(0, w, h, 0);
    assert w * h == h * w;
  }

  lemma {:induction false} HeldCount(c: Canvas, dx: nat, dy: nat, w: nat, h: nat, size: nat)
    requires At(0, w, h, 0) <= size
    ensures HeldVisible(c, dx, dy, w, h, size) == At(0, Covered(dx, w, c.width), Covered(dy, h, c.height), 0)
    decreases h
  {
    if h > 0 {
      HeldCount(c, dx, dy, w, h - 1, size);
    }
  }

  /**
   Draws a tile pixel by pixel. Pixels that the buffer lacks are left alone and reported; both
   callers make sure that it lacks none.
   */
  method BlitBgrBuffer(surface: Surface, dx: nat, dy: nat, w: nat, h: nat, bgr: seq<Bgr>) returns (outcome: WriteOutcome)
    requires surface.Valid()
    modifies surface.pixels
    ensures surface.View() == Blitted(old(surface.View()), dx, dy, w, HeldRows(old(surface.View()), dx, dy, w, h, bgr))
    ensures outcome == WriteOutcome(w * h, HeldVisible(old(surface.View()), dx, dy, w, h, |bgr|), |bgr| < w * h)
  {
    hide At, Filled, Blitted, HeldRows, HeldVisible, Visible, RowsOf;
    ghost var was := surface.View();
    ghost var src := HeldRows(was, dx, dy, w, h, bgr);
    var written: nat := 0;
    var truncated := false;
    HeldNothing(was, dx, dy, w, |bgr|);
    for y := 0 to h
      invariant DrawnTo(surface.View(), was, dx, dy, w, src, 0, y)
      invariant written == HeldVisible(was, dx, dy, w, y, |bgr|)
      invariant truncated <==> |bgr| < At(0, w, y, 0)
    {
      var n, short := BlitBgrRow(surface, dx, dy, w, h, bgr, y, was);
      HeldOneMore(was, dx, dy, w, y, |bgr|);
      RowEnd(w, y);
      written := written + n;
      truncated := truncated || short;
    }
    DrawnAll(surface.View(), was, dx, dy, w, src, h);
    AtIs(0, w, h, 0);
    assert w * h == h * w;
    return WriteOutcome(w * h, written, truncated);
  }

  lemma HeldNothing(c: Canvas, dx: nat, dy: nat, w: nat, size: nat)
    ensures HeldVisible(c, dx, dy, w, 0, size) == 0 && At(0, w, 0, 0) == 0
  {
  }

  lemma HeldOneMore(c: Canvas, dx: nat, dy: nat, w: nat, y: nat, size: nat)
    ensures HeldVisible(c, dx, dy, w, y + 1, size)
         == HeldVisible(c, dx, dy, w, y, size) + (if dy + y < c.height then Covered(dx, HeldInRow(w, size, y), c.width) else 0)
  {
  }

  lemma RowEnd(w: nat, y: nat)
    ensures At(0, w, y + 1, 0) == At(0, w, y, 0) + w
  {
  }

  lemma VisibleIs(c: Canvas, r: Rect)
    ensures Visible(c, r) == At(0, Covered(r.x, r.w, c.width), Covered(r.y, r.h, c.height), 0)
  {
    hide At;
    var a, b := Covered(r.x, r.w, c.width), Covered(r.y, r.h, c.height);
    AtIs(0, a, b, 0);
    assert a * b == b * a;
  }

  method BlitBgrRow(surface: Surface, dx: nat, dy: nat, w: nat, h: nat, bgr: seq<Bgr>, y: nat, ghost was: Canvas)
    returns (written: nat, short: bool)
    requires surface.Valid() && y < h && was.Valid()
    requires DrawnTo(surface.View(), was, dx, dy, w, HeldRows(was, dx, dy, w, h, bgr), 0, y)
    modifies surface.pixels
    ensures DrawnTo(surface.View(), was, dx, dy, w, HeldRows(was, dx, dy, w, h, bgr), 0, y + 1)
    ensures written == if dy + y < was.height then Covered(dx, HeldInRow(w, |bgr|, y), was.width) else 0
    ensures short <==> w > 0 && |bgr| < At(0, w, y, 0) + w
  {
    hide At, Filled, HeldRows, RowsOf, DrawnTo;
    ghost var src := HeldRows(was, dx, dy, w, h, bgr);
    SameSize(surface.View(), was, dx, dy, w, src, 0, y);
    written, short := 0, false;
    for x := 0 to w
      invariant DrawnTo(surface.View(), was, dx, dy, w, src, x, y)
      invariant written == if dy + y < was.height then Covered(dx, Min(x, HeldInRow(w, |bgr|, y)), was.width) else 0
      invariant short <==> x > 0 && |bgr| < At(0, w, y, 0) + x
    {
      AtCol(0, w, y, x);
      HeldCell(was, dx, dy, w, h, bgr, x, y);
      if At(0, w, y, x) >= |bgr| {
        short := true;
        SkippedPixel(surface.View(), was, dx, dy, w, src, x, y);
      } else {
        DrawnPixel(surface.View(), was, dx, dy, w, src, x, y);
        var outcome := surface.SetPixelBgr(dx + x, dy + y, bgr[At(0, w, y, x)]);
        written := written + outcome.written;
      }
    }
    DrawnRow(surface.View(), was, dx, dy, w, src, y);
  }

  lemma HeldCell(was: Canvas, dx: nat, dy: nat, w: nat, h: nat, bgr: seq<Bgr>, x: nat, y: nat)
    requires was.Valid() && x < w && y < h
    ensures HeldRows(was, dx, dy, w, h, bgr)[y][x]
         == if At(0, w, y, x) < |bgr| then Opaque(bgr[At(0, w, y, x)]) else PixelOr(was, dx + x, dy + y)
  {
  }

  lemma SkippedPixel(now: Canvas, was: Canvas, dx: nat, dy: nat, w: nat, src: Rows<Pixel>, px: nat, py: nat)
    requires now.Valid() && was.Valid() && Wide(src, w) && px < w && py < |src| && src[py][px] == PixelOr(was, dx + px, dy + py)
    requires DrawnTo(now, was, dx, dy, w, src, px, py)
    ensures DrawnTo(now, was, dx, dy, w, src, px + 1, py)
  {
  }

  lemma SameSize(now: Canvas, was: Canvas, dx: nat, dy: nat, w: nat, src: Rows<Pixel>, px: nat, py: nat)
    requires now.Valid() && was.Valid() && Wide(src, w) && DrawnTo(now, was, dx, dy, w, src, px, py)
    ensures now.width == was.width && now.height == was.height
  {
  }

  lemma OpaqueCell(bgr: seq<Bgr>, w: nat, h: nat, x: nat, y: nat)
    requires At(0, w, h, 0) <= |bgr| && x < w && y < h
    ensures At(0, w, y, x) < |bgr| && OpaqueRows(bgr, w, h)[y][x] == Opaque(bgr[At(0, w, y, x)])
  {
    AtInside(0, w, h, y, x);
  }

  lemma DrawnRow(now: Canvas, was: Canvas, dx: nat, dy: nat, w: nat, src: Rows<Pixel>, py: nat)
    requires now.Valid() && was.Valid() && Wide(src, w) && DrawnTo(now, was, dx, dy, w, src, w, py)
    ensures DrawnTo(now, was, dx, dy, w, src, 0, py + 1)
  {
  }

  // ---------- The decoder's state ----------

  lemma ColumnsStep(data: seq<Byte>, p: nat, x: nat, header: V.Header, c: V.Caches, tile: V.Tile, w: nat, h: nat)
    requires header.Valid() && c.Valid() && |tile| == At(0, w, h, 0) && p <= |data| && x <= header.xEnd
    ensures V.ReadColumn(data, p, header.Height(), header.bkg, c).None? ==>
              V.DecodeColumns(data, p, x, header, c, tile, w, h) == V.Progress(tile, c, None)
    ensures V.ReadColumn(data, p, header.Height(), header.bkg, c).Some? ==>
              var column := V.ReadColumn(data, p, header.Height(), header.bkg, c).value;
              V.DecodeColumns(data, p, x, header, c, tile, w, h)
              == V.DecodeColumns(data, column.next, x + 1, header, column.caches,
                                 V.PaintColumn(tile, w, h, x, header.yStart, column.bar), w, h)
  {
    hide V.ReadColumn, V.PaintColumn;
  }

  lemma ColumnsEnd(data: seq<Byte>, p: nat, x: nat, header: V.Header, c: V.Caches, tile: V.Tile, w: nat, h: nat)
    requires header.Valid() && c.Valid() && |tile| == At(0, w, h, 0) && p <= |data| && x > header.xEnd
    ensures V.DecodeColumns(data, p, x, header, c, tile, w, h) == V.Progress(tile, c, Some(p))
  {
  }

  lemma BandsStep(data: seq<Byte>, p: nat, c: V.Caches, tile: V.Tile, w: nat, h: nat)
    requires c.Valid() && |tile| == At(0, w, h, 0) && p < |data|
    ensures V.ReadHeader(data, p).None? ==> V.DecodeBands(data, p, c, tile, w, h) == V.Progress(tile, c, None)
    ensures V.ReadHeader(data, p).Some? ==>
              var (header, q) := V.ReadHeader(data, p).value;
              var columns := V.DecodeColumns(data, q, header.xStart, header, c, tile, w, h);
              V.DecodeBands(data, p, c, tile, w, h) ==
              if columns.next.None? then columns
              else V.DecodeBands(data, columns.next.value, columns.caches, columns.tile, w, h)
  {
    hide V.ReadHeader, V.DecodeColumns;
  }

  lemma BandsEnd(data: seq<Byte>, p: nat, c: V.Caches, tile: V.Tile, w: nat, h: nat)
    requires c.Valid() && |tile| == At(0, w, h, 0) && p >= |data|
    ensures V.DecodeBands(data, p, c, tile, w, h) == V.Progress(tile, c, Some(p))
  {
  }

  method NextHeader(r: ByteReader) returns (header: Option<V.Header>)
    requires r.Valid()
    modifies r
    ensures r.Valid()
    ensures header.None? <==> V.ReadHeader(r.data, old(r.pos)).None?
    ensures header.Some? ==> V.ReadHeader(r.data, old(r.pos)) == Some((header.value, r.pos))
  {
    hide ReadU16, V.ReadBgr;
    var xStart := r.U16();
    if xStart.None? {
      return None;
    }
    var xEnd := r.U16();
    if xEnd.None? {
      return None;
    }
    var yStart := r.U16();
    if yStart.None? {
      return None;
    }
    var yEnd := r.U16();
    if yEnd.None? {
      return None;
    }
    var bkg := ReadBgr(r);
    if bkg.None? {
      return None;
    }
    var result := V.Header(xStart.value, xEnd.value, yStart.value, yEnd.value, bkg.value);
    if yEnd.value < yStart.value || yEnd.value - yStart.value + 1 > V.MAX_HEIGHT || xEnd.value < xStart.value {
      return None;
    }
    return Some(result);
  }

  class ClearCodecContext {
    var seqNumber: Option<Byte>
    const glyphCache: array<Option<V.Tile>>
    const vbarStorage: array<Option<V.Bar>>
    const shortVbarStorage: array<Option<V.Bar>>
    var vbarCursor: nat
    var shortVbarCursor: nat

    ghost predicate Valid()
      reads this
    {
      && glyphCache.Length == C.GLYPH_CACHE_SIZE
      && vbarStorage.Length == V.VBAR_SIZE && shortVbarStorage.Length == V.SHORT_VBAR_SIZE
      && vbarStorage != shortVbarStorage && glyphCache != vbarStorage && glyphCache != shortVbarStorage
      && vbarCursor < V.VBAR_SIZE && shortVbarCursor < V.SHORT_VBAR_SIZE
    }

    ghost function Caches(): (c: V.Caches)
      requires Valid()
      reads this, vbarStorage, shortVbarStorage
      ensures c.Valid()
    {
      V.Caches(vbarStorage[..], shortVbarStorage[..], vbarCursor, shortVbarCursor)
    }

    ghost function View(): (s: C.State)
      requires Valid()
      reads this, glyphCache, vbarStorage, shortVbarStorage
      ensures s.Valid()
    {
      C.State(seqNumber, glyphCache[..], Caches())
    }

    constructor ()
      ensures Valid() && fresh(glyphCache) && fresh(vbarStorage) && fresh(shortVbarStorage)
      ensures View() == C.Fresh()
    {
      seqNumber := None;
      glyphCache := new Option<V.Tile>[C.GLYPH_CACHE_SIZE](i => None);
      vbarStorage := new Option<V.Bar>[V.VBAR_SIZE](i => None);
      shortVbarStorage := new Option<V.Bar>[V.SHORT_VBAR_SIZE](i => None);
      vbarCursor := 0;
      shortVbarCursor := 0;
      new;
    }

    method StoreBar(bar: V.Bar)
      requires Valid()
      modifies this`vbarCursor, vbarStorage
      ensures Valid() && Caches() == V.Push(old(Caches()), bar)
    {
      vbarStorage[vbarCursor] := Some(bar);
      vbarCursor := (vbarCursor + 1) % V.VBAR_SIZE;
    }

    method StoreShort(bar: V.Bar)
      requires Valid()
      modifies this`shortVbarCursor, shortVbarStorage
      ensures Valid() && Caches() == V.PushShort(old(Caches()), bar)
    {
      shortVbarStorage[shortVbarCursor] := Some(bar);
      shortVbarCursor := (shortVbarCursor + 1) % V.SHORT_VBAR_SIZE;
    }

    /** One column of a band. A recall of an empty slot paints black and keeps the rest of the message going. */
    method DecodeColumn(r: ByteReader, height: nat, bkg: Bgr) returns (pixels: Option<V.Bar>)
      requires Valid() && r.Valid()
      modifies this`vbarCursor, this`shortVbarCursor, vbarStorage, shortVbarStorage, r
      ensures Valid() && r.Valid()
      ensures pixels.None? <==> V.ReadColumn(r.data, old(r.pos), height, bkg, old(Caches())).None?
      ensures pixels.None? ==> Caches() == old(Caches())
      ensures pixels.Some? ==>
                V.ReadColumn(r.data, old(r.pos), height, bkg, old(Caches())) == Some(V.Column(pixels.value, r.pos, Caches()))
    {
      hide ReadU8, ReadU16, V.ReadPixels, V.Push, V.PushShort, V.Overlaid, V.Resized;
      var header := r.U16();
      if header.None? {
        return None;
      }
      var word: nat := header.value;
      if word >= 0x8000 {
        return Some(V.Resized(V.BarOr(vbarStorage[word - 0x8000]), height));
      }
      if word >= 0x4000 {
        var yOn := r.U8();
        if yOn.None? {
          return None;
        }
        var full := V.Overlaid(bkg, height, yOn.value, V.BarOr(shortVbarStorage[word - 0x4000]));
        StoreBar(full);
        return Some(full);
      }
      var yOn, yOff := word % 0x100, word / 0x100;
      if yOff < yOn || yOff - yOn > V.MAX_HEIGHT {
        return None;
      }
      var short := ReadPixelList(r, yOff - yOn);
      if short.None? {
        return None;
      }
      StoreShort(short.value);
      var full := V.Overlaid(bkg, height, yOn, short.value);
      StoreBar(full);
      return Some(full);
    }

    method DecodeColumns(r: ByteReader, header: V.Header, tile: array<Bgr>, w: nat, h: nat) returns (ok: bool)
      requires Valid() && r.Valid() && header.Valid() && tile.Length == At(0, w, h, 0)
      modifies this`vbarCursor, this`shortVbarCursor, vbarStorage, shortVbarStorage, r, tile
      ensures Valid() && r.Valid()
      ensures V.DecodeColumns(r.data, old(r.pos), header.xStart, header, old(Caches()), old(tile[..]), w, h)
           == V.Progress(tile[..], Caches(), if ok then Some(r.pos) else None)
    {
      hide V.ReadColumn, V.PaintColumn, V.DecodeColumns, At;
      var x: nat := header.xStart;
      while x <= header.xEnd
        invariant Valid() && r.Valid() && x <= header.xEnd as int + 1
        invariant V.DecodeColumns(r.data, old(r.pos), header.xStart, header, old(Caches()), old(tile[..]), w, h)
               == V.DecodeColumns(r.data, r.pos, x, header, Caches(), tile[..], w, h)
        decreases header.xEnd as int + 1 - x
      {
        ColumnsStep(r.data, r.pos, x, header, Caches(), tile[..], w, h);
        var pixels := DecodeColumn(r, header.Height(), header.bkg);
        if pixels.None? {
          return false;
        }
        PaintBar(tile, w, h, x, header.yStart, pixels.value);
        x := x + 1;
      }
      ColumnsEnd(r.data, r.pos, x, header, Caches(), tile[..], w, h);
      return true;
    }

    method DecodeBands(data: seq<Byte>, tile: array<Bgr>, w: nat, h: nat) returns (ok: bool)
      requires Valid() && tile.Length == At(0, w, h, 0)
      modifies this`vbarCursor, this`shortVbarCursor, vbarStorage, shortVbarStorage, tile
      ensures Valid()
      ensures var r := V.DecodeBands(data, 0, old(Caches()), old(tile[..]), w, h);
              r.tile == tile[..] && r.caches == Caches() && (r.next.Some? <==> ok)
    {
      hide V.ReadHeader, V.DecodeColumns, V.DecodeBands, At;
      var r := new ByteReader(data);
      while r.Remaining() > 0
        invariant Valid() && r.Valid() && r.data == data
        invariant V.DecodeBands(data, 0, old(Caches()), old(tile[..]), w, h) == V.DecodeBands(data, r.pos, Caches(), tile[..], w, h)
        decreases |data| - r.pos
      {
        BandsStep(data, r.pos, Caches(), tile[..], w, h);
        var header := NextHeader(r);
        if header.None? {
          return false;
        }
        var done := DecodeColumns(r, header.value, tile, w, h);
        if !done {
          return false;
        }
      }
      BandsEnd(data, r.pos, Caches(), tile[..], w, h);
      return true;
    }

    /** The three layers, in order, on one tile. Columns cached before an error stay cached. */
    method DecodeLayers(r: ByteReader, sizes: (nat, nat, nat), tile: array<Bgr>, w: nat, h: nat) returns (ok: bool)
      requires Valid() && r.Valid() && tile.Length == At(0, w, h, 0) && tile[..] == C.BlackTile(w, h)
      modifies this`vbarCursor, this`shortVbarCursor, vbarStorage, shortVbarStorage, r, tile
      ensures Valid()
      ensures C.DecodeLayers(r.data, old(r.pos), sizes, old(Caches()), w, h) == (Caches(), if ok then Some(tile[..]) else None)
    {
      hide ReadBytes, DecodeResidual, V.DecodeBands, DecodeSubcodecs, C.BlackTile, At;
      if sizes.0 > 0 {
        var segment := r.Bytes(sizes.0);
        if segment.None? {
          return false;
        }
        var done := DecodeResidualLayer(segment.value, tile);
        if !done {
          return false;
        }
      }
      if sizes.1 > 0 {
        var segment := r.Bytes(sizes.1);
        if segment.None? {
          return false;
        }
        var done := DecodeBands(segment.value, tile, w, h);
        if !done {
          return false;
        }
      }
      if sizes.2 > 0 {
        var segment := r.Bytes(sizes.2);
        if segment.None? {
          return false;
        }
        var done := DecodeSubcodecLayer(segment.value, w, h, tile);
        if !done {
          return false;
        }
      }
      return true;
    }

    method NextSizes(r: ByteReader) returns (sizes: Option<(nat, nat, nat)>)
      requires r.Valid()
      modifies r
      ensures r.Valid()
      ensures sizes.None? <==> C.ReadSizes(r.data, old(r.pos)).None?
      ensures sizes.Some? ==> C.ReadSizes(r.data, old(r.pos)) == Some((sizes.value, r.pos))
    {
      hide ReadU32;
      var residual := r.U32();
      if residual.None? {
        return None;
      }
      var bands := r.U32();
      if bands.None? {
        return None;
      }
      var subcodecs := r.U32();
      if subcodecs.None? {
        return None;
      }
      return Some((residual.value, bands.value, subcodecs.value));
    }

    method Compose(r: ByteReader, glyph: Option<nat>, w: nat, h: nat) returns (pixels: Option<V.Tile>)
      requires Valid() && r.Valid() && (glyph.Some? ==> glyph.value < C.GLYPH_CACHE_SIZE)
      modifies this`vbarCursor, this`shortVbarCursor, glyphCache, vbarStorage, shortVbarStorage, r
      ensures Valid()
      ensures C.Compose(r.data, old(r.pos), glyph, old(View()), w, h) == C.Drawing(View(), pixels)
    {
      hide C.ReadSizes, C.DecodeLayers, C.BlackTile, At;
      var sizes := NextSizes(r);
      if sizes.None? {
        return None;
      }
      var tile := NewTile(w, h);
      var done := DecodeLayers(r, sizes.value, tile, w, h);
      if !done {
        return None;
      }
      pixels := Some(tile[..]);
      if glyph.Some? {
        glyphCache[glyph.value] := pixels;
      }
    }

    method NewTile(w: nat, h: nat) returns (tile: array<Bgr>)
      ensures fresh(tile) && tile.Length == At(0, w, h, 0) && tile[..] == C.BlackTile(w, h)
    {
      AtIs(0, w, h, 0);
      tile := new Bgr[h * w](i => V.BLACK);
    }

    method DecodeBody(r: ByteReader, flags: Byte, w: nat, h: nat) returns (pixels: Option<V.Tile>)
      requires Valid() && r.Valid()
      modifies this`vbarCursor, this`shortVbarCursor, glyphCache, vbarStorage, shortVbarStorage, r
      ensures Valid()
      ensures C.DecodeBody(r.data, old(r.pos), flags, old(View()), w, h) == C.Drawing(View(), pixels)
    {
      hide C.Compose, C.Has, ReadU16, At;
      var glyph: Option<nat> := None;
      if C.Has(flags, C.GLYPH_INDEX) {
        var index := r.U16();
        if index.None? || index.value >= C.GLYPH_CACHE_SIZE {
          return None;
        }
        glyph := Some(index.value);
        if C.Has(flags, C.GLYPH_HIT) {
          pixels := glyphCache[index.value];
          AtIs(0, w, h, 0);
          if pixels.Some? && |pixels.value| < h * w {
            return None;
          }
          return;
        }
      }
      pixels := Compose(r, glyph, w, h);
    }

    /** Checks the sequence number and restarts the cursors if asked to. */
    method Accept(r: ByteReader, ghost w: nat, ghost h: nat) returns (flags: Option<Byte>)
      requires Valid() && r.Valid() && r.pos == 0
      modifies this`seqNumber, this`vbarCursor, this`shortVbarCursor, r
      ensures Valid() && r.Valid()
      ensures flags.None? ==> C.Decode(r.data, old(View()), w, h) == C.Drawing(old(View()), None) && View() == old(View())
      ensures flags.Some? ==> C.Decode(r.data, old(View()), w, h) == C.DecodeBody(r.data, r.pos, flags.value, View(), w, h)
    {
      hide C.DecodeBody, C.Has, ReadU8;
      flags := r.U8();
      if flags.None? {
        return None;
      }
      var seqNo := r.U8();
      if seqNo.None? {
        return None;
      }
      if seqNumber.Some? && seqNo.value != (seqNumber.value as int + 1) % 0x100 {
        return None;
      }
      seqNumber := Some(seqNo.value);
      if C.Has(flags.value, C.CACHE_RESET) {
        vbarCursor := 0;
        shortVbarCursor := 0;
      }
    }

    /** Decodes one message and draws it; after an error the surface is as it was. */
    method Decompress(data: seq<Byte>, surface: Surface, dx: nat, dy: nat, w: nat, h: nat) returns (r: Option<WriteOutcome>)
      requires Valid() && surface.Valid()
      modifies this, glyphCache, vbarStorage, shortVbarStorage, surface.pixels
      ensures Valid()
      ensures View() == C.Decode(data, old(View()), w, h).state
      ensures Drew(C.Decode(data, old(View()), w, h).pixels, old(surface.View()), surface.View(), dx, dy, w, h, r)
    {
      hide *;
      var reader := new ByteReader(data);
      ghost var before: Canvas := surface.View();
      DrewNothing(before, dx, dy, w, h);
      var flags := Accept(reader, w, h);
      if flags.None? {
        return None;
      }
      var pixels := DecodeBody(reader, flags.value, w, h);
      if pixels.None? {
        return None;
      }
      ghost var was := surface.View();
      var outcome := BlitBgrBuffer(surface, dx, dy, w, h, pixels.value);
      HeldWhole(was, dx, dy, w, h, pixels.value);
      DrewTile(pixels.value, before, surface.View(), dx, dy, w, h, outcome);
      return Some(outcome);
    }
  }
}
