/**
 ClearCodec's bands layer (section 2.2.4.1.1.2 of MS-RDPEGFX): columns of pixels that are sent,
 composed from a short column, or recalled from two ring caches that sender and receiver keep in
 step without ever exchanging an index for a new entry.
 */
module VBars {
  import opened Machine
  import opened Grid
  import opened Pixels
  import opened Bytes

  const VBAR_SIZE := 32768
  const SHORT_VBAR_SIZE := 16384
  const MAX_HEIGHT := 52
  const BLACK := Bgr(0, 0, 0)

  type Bar = seq<Bgr>

  // ---------- Columns ----------

  /** A recalled column cut to the band's height, or filled up with black. */
  function Resized(bar: Bar, height: nat): (r: Bar)
    ensures |r| == height
  {
    seq(height, i => if 0 <= i < |bar| then bar[i] else BLACK)
  }

  /** A short column over the band's background. */
  function Overlaid(bkg: Bgr, height: nat, yOn: nat, short: Bar): (r: Bar)
    ensures |r| == height
  {
    seq(height, i => if yOn <= i < yOn + |short| then short[i - yOn] else bkg)
  }

  function BarOr(slot: Option<Bar>): Bar {
    if slot.Some? then slot.value else []
  }

  // ---------- The caches ----------

  datatype Caches = Caches(vbars: seq<Option<Bar>>, shorts: seq<Option<Bar>>, cursor: nat, shortCursor: nat) {
    predicate Valid() {
      |vbars| == VBAR_SIZE && |shorts| == SHORT_VBAR_SIZE && cursor < VBAR_SIZE && shortCursor < SHORT_VBAR_SIZE
    }
  }

  function Push(c: Caches, bar: Bar): (r: Caches)
    requires c.Valid()
    ensures r.Valid()
  {
    c.(vbars := c.vbars[c.cursor := Some(bar)], cursor := (c.cursor + 1) % VBAR_SIZE)
  }

  function PushShort(c: Caches, bar: Bar): (r: Caches)
    requires c.Valid()
    ensures r.Valid()
  {
    c.(shorts := c.shorts[c.shortCursor := Some(bar)], shortCursor := (c.shortCursor + 1) % SHORT_VBAR_SIZE)
  }

  function Restart(c: Caches): Caches {
    c.(cursor := 0, shortCursor := 0)
  }

  // ---------- Reading ----------

  function ReadBgr(data: seq<Byte>, p: nat): (r: Option<(Bgr, nat)>)
    ensures r.Some? ==> p < r.value.1 <= |data|
  {
    if p + 3 <= |data| then Some((Bgr(data[p], data[p + 1], data[p + 2]), p + 3)) else None
  }

  function ReadPixels(data: seq<Byte>, p: nat, n: nat): (r: Option<(Bar, nat)>)
    ensures r.Some? ==> p <= r.value.1 && (p <= |data| ==> r.value.1 <= |data|) && |r.value.0| == n
    decreases n
  {
    if n == 0 then Some(([], p))
    else
      match ReadBgr(data, p)
      case None => None
      case Some((c, q)) =>
        match ReadPixels(data, q, n - 1)
        case None => None
        case Some((more, end)) => Some(([c] + more, end))
  }

  /** A column, where the next one starts, and the caches behind it. */
  datatype Column = Column(bar: Bar, next: nat, caches: Caches)

  function ReadShortHit(data: seq<Byte>, q: nat, index: nat, height: nat, bkg: Bgr, c: Caches): (r: Option<Column>)
    requires c.Valid() && index < SHORT_VBAR_SIZE
    ensures r.Some? ==> q <= r.value.next <= |data| && |r.value.bar| == height && r.value.caches.Valid()
  {
    match ReadU8(data, q)
    case None => None
    case Some((yOn, end)) =>
      var full := Overlaid(bkg, height, yOn, BarOr(c.shorts[index]));
      Some(Column(full, end, Push(c, full)))
  }

  function ReadMiss(data: seq<Byte>, q: nat, yOn: nat, yOff: nat, height: nat, bkg: Bgr, c: Caches): (r: Option<Column>)
    requires c.Valid() && q <= |data|
    ensures r.Some? ==> q <= r.value.next <= |data| && |r.value.bar| == height && r.value.caches.Valid()
  {
    if yOff < yOn || yOff - yOn > MAX_HEIGHT then None
    else
      match ReadPixels(data, q, yOff - yOn)
      case None => None
      case Some((short, end)) =>
        var full := Overlaid(bkg, height, yOn, short);
        Some(Column(full, end, Push(PushShort(c, short), full)))
  }

  function ReadColumn(data: seq<Byte>, p: nat, height: nat, bkg: Bgr, c: Caches): (r: Option<Column>)
    requires c.Valid()
    ensures r.Some? ==> p < r.value.next <= |data| && |r.value.bar| == height && r.value.caches.Valid()
  {
    match ReadU16(data, p)
    case None => None
    case Some((header, q)) =>
      if header >= 0x8000 then Some(Column(Resized(BarOr(c.vbars[header as int - 0x8000]), height), q, c))
      else if header >= 0x4000 then ReadShortHit(data, q, header as int - 0x4000, height, bkg, c)
      else ReadMiss(data, q, header as int % 0x100, header as int / 0x100, height, bkg, c)
  }

  // ---------- Painting ----------

  type Tile = seq<Bgr>

  function SetPixel(tile: Tile, w: nat, h: nat, x: nat, y: nat, p: Bgr): (r: Tile)
    requires |tile| == At(0, w, h, 0)
    ensures |r| == |tile|
  {
    if x >= w || y >= h then tile else
      AtInside(0, w, h, y, x);
      tile[At(0, w, y, x) := p]
  }

  /** Paints a column downwards from (x, y); what lies outside the tile is dropped. */
  function PaintColumn(tile: Tile, w: nat, h: nat, x: nat, y: nat, bar: Bar): (r: Tile)
    requires |tile| == At(0, w, h, 0)
    ensures |r| == |tile|
    decreases |bar|
  {
    if bar == [] then tile else PaintColumn(SetPixel(tile, w, h, x, y, bar[0]), w, h, x, y + 1, bar[1..])
  }

  lemma SetPixelShows(tile: Tile, w: nat, h: nat, x: nat, y: nat, p: Bgr, cx: nat, cy: nat)
    requires |tile| == At(0, w, h, 0) && cx < w && cy < h
    ensures At(0, w, cy, cx) < |tile|
    ensures SetPixel(tile, w, h, x, y, p)[At(0, w, cy, cx)] == if cx == x && cy == y then p else tile[At(0, w, cy, cx)]
  {
    hide At;
    AtInside(0, w, h, cy, cx);
    if x < w && y < h {
      AtInside(0, w, h, y, x);
      AtDiffers(0, w, y, x);
    }
  }

  /** Exactly the column's cells inside the tile take the column's colours. */
  lemma {:induction false} ColumnShows(tile: Tile, w: nat, h: nat, x: nat, y: nat, bar: Bar, cx: nat, cy: nat)
    requires |tile| == At(0, w, h, 0) && cx < w && cy < h
    ensures At(0, w, cy, cx) < |tile|
    ensures PaintColumn(tile, w, h, x, y, bar)[At(0, w, cy, cx)]
         == if cx == x && y <= cy < y + |bar| then bar[cy - y] else tile[At(0, w, cy, cx)]
    decreases |bar|
  {
    hide At, SetPixel;
    if bar == [] {
      AtInside(0, w, h, cy, cx);
    } else {
      SetPixelShows(tile, w, h, x, y, bar[0], cx, cy);
      ColumnShows(SetPixel(tile, w, h, x, y, bar[0]), w, h, x, y + 1, bar[1..], cx, cy);
    }
  }

  // ---------- Bands ----------

  datatype Header = Header(xStart: U16, xEnd: U16, yStart: U16, yEnd: U16, bkg: Bgr) {
    predicate Valid() {
      xStart <= xEnd && yStart <= yEnd < yStart as int + MAX_HEIGHT
    }

    function Height(): nat
      requires Valid()
    {
      yEnd - yStart + 1
    }
  }

  function ReadHeader(data: seq<Byte>, p: nat): (r: Option<(Header, nat)>)
    ensures r.Some? ==> p < r.value.1 <= |data| && r.value.0.Valid()
  {
    match ReadU16(data, p)
    case None => None
    case Some((xStart, p1)) =>
      match ReadU16(data, p1)
      case None => None
      case Some((xEnd, p2)) =>
        match ReadU16(data, p2)
        case None => None
        case Some((yStart, p3)) =>
          match ReadU16(data, p3)
          case None => None
          case Some((yEnd, p4)) =>
            match ReadBgr(data, p4)
            case None => None
            case Some((bkg, p5)) =>
              var header := Header(xStart, xEnd, yStart, yEnd, bkg);
              if header.Valid() then Some((header, p5)) else None
  }

  /** What has been painted and cached, and where reading goes on; None after an error. */
  datatype Progress = Progress(tile: Tile, caches: Caches, next: Option<nat>)

  function DecodeColumns(data: seq<Byte>, p: nat, x: nat, header: Header, c: Caches, tile: Tile, w: nat, h: nat): (r: Progress)
    requires header.Valid() && c.Valid() && |tile| == At(0, w, h, 0) && p <= |data|
    ensures r.caches.Valid() && |r.tile| == |tile|
    ensures r.next.Some? ==> p <= r.next.value <= |data|
    decreases header.xEnd + 1 - x
  {
    if x > header.xEnd then Progress(tile, c, Some(p))
    else
      match ReadColumn(data, p, header.Height(), header.bkg, c)
      case None => Progress(tile, c, None)
      case Some(column) =>
        DecodeColumns(data, column.next, x + 1, header, column.caches, PaintColumn(tile, w, h, x, header.yStart, column.bar), w, h)
  }

  function DecodeBands(data: seq<Byte>, p: nat, c: Caches, tile: Tile, w: nat, h: nat): (r: Progress)
    requires c.Valid() && |tile| == At(0, w, h, 0)
    ensures r.caches.Valid() && |r.tile| == |tile|
    decreases |data| - p
  {
    if p >= |data| then Progress(tile, c, Some(p))
    else
      match ReadHeader(data, p)
      case None => Progress(tile, c, None)
      case Some((header, q)) =>
        var columns := DecodeColumns(data, q, header.xStart, header, c, tile, w, h);
        if columns.next.None? then columns
        else DecodeBands(data, columns.next.value, columns.caches, columns.tile, w, h)
  }
}
