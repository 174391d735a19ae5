/** The bytes of a region and of the blocks around it (section 2.2.4.2.1.5 of MS-RDPEGFX). */
module RegionBytes {
  import opened Machine
  import opened Bytes
  import opened Canvas
  import opened Quants
  import opened TileBlocks
  import opened TileSender
  import opened Regions

  // ---------- Tables and rectangles ----------

  function QuantBytes(q: Quant): (r: seq<Byte>)
    requires Nibbles(q)
    ensures |r| == 5
  {
    [q[9] + 16 * q[6], q[7] + 16 * q[8], q[3] + 16 * q[4], q[5] + 16 * q[0], q[1] + 16 * q[2]]
  }

  lemma NibblesBack(low: int, high: int)
    requires 0 <= low < 16 && 0 <= high < 16
    ensures (low + 16 * high) % 16 == low && (low + 16 * high) / 16 == high
  {
  }

  lemma QuantBack(q: Quant)
    requires Nibbles(q)
    ensures QuantOf(QuantBytes(q)) == q
  {
    NibblesBack(q[9], q[6]);
    NibblesBack(q[7], q[8]);
    NibblesBack(q[3], q[4]);
    NibblesBack(q[5], q[0]);
    NibblesBack(q[1], q[2]);
    assert QuantOf(QuantBytes(q)) == [q[0], q[1], q[2], q[3], q[4], q[5], q[6], q[7], q[8], q[9]] == q;
  }

  lemma QuantReadBack(data: seq<Byte>, p: nat, q: Quant, rest: seq<Byte>)
    requires Nibbles(q) && p <= |data| && data[p..] == QuantBytes(q) + rest
    ensures ReadQuant(data, p) == Some((q, p + 5)) && data[p + 5..] == rest
  {
    hide QuantOf, QuantBytes;
    QuantBack(q);
    SliceBack(data, p, QuantBytes(q), rest);
  }

  ghost predicate AllNibbles(qs: seq<Quant>) {
    forall i :: 0 <= i < |qs| ==> Nibbles(qs[i])
  }

  function QuantsBytes(qs: seq<Quant>): seq<Byte>
    requires AllNibbles(qs)
  {
    if qs == [] then [] else QuantBytes(qs[0]) + QuantsBytes(qs[1..])
  }

  lemma {:induction false} QuantsBack(data: seq<Byte>, p: nat, qs: seq<Quant>, rest: seq<Byte>)
    requires AllNibbles(qs) && p <= |data| && data[p..] == QuantsBytes(qs) + rest
    ensures var end := p + |QuantsBytes(qs)|;
            ReadQuants(data, p, |qs|) == Some((qs, end)) && end <= |data| && data[end..] == rest
    decreases |qs|
  {
    hide ReadQuant, QuantBytes, Nibbles;
    if qs != [] {
      var more := QuantsBytes(qs[1..]);
      assert data[p..] == QuantBytes(qs[0]) + (more + rest);
      QuantReadBack(data, p, qs[0], more + rest);
      QuantsBack(data, p + 5, qs[1..], rest);
      assert [qs[0]] + qs[1..] == qs;
    }
  }

  ghost predicate ProgNibbles(g: Three<Quant>) {
    Nibbles(g.y) && Nibbles(g.cb) && Nibbles(g.cr)
  }

  /** The first byte is the informational quality, which the client skips. */
  function ProgBytes(g: Three<Quant>): (r: seq<Byte>)
    requires ProgNibbles(g)
    ensures |r| == 16
  {
    [0] + (QuantBytes(g.y) + (QuantBytes(g.cb) + QuantBytes(g.cr)))
  }

  lemma ProgBack(data: seq<Byte>, p: nat, g: Three<Quant>, rest: seq<Byte>)
    requires ProgNibbles(g) && p <= |data| && data[p..] == ProgBytes(g) + rest
    ensures ReadProg(data, p) == Some((g, p + 16)) && data[p + 16..] == rest
  {
    hide ReadQuant, QuantBytes, Nibbles;
    var r3 := QuantBytes(g.cr) + rest;
    var r2 := QuantBytes(g.cb) + r3;
    var r1 := QuantBytes(g.y) + r2;
    assert data[p..] == [0] + r1;
    ByteBack(data, p, 0, r1);
    QuantReadBack(data, p + 1, g.y, r2);
    QuantReadBack(data, p + 6, g.cb, r3);
    QuantReadBack(data, p + 11, g.cr, rest);
  }

  ghost predicate AllProgNibbles(gs: seq<Three<Quant>>) {
    forall i :: 0 <= i < |gs| ==> ProgNibbles(gs[i])
  }

  function ProgsBytes(gs: seq<Three<Quant>>): seq<Byte>
    requires AllProgNibbles(gs)
  {
    if gs == [] then [] else ProgBytes(gs[0]) + ProgsBytes(gs[1..])
  }

  lemma {:induction false} ProgsBack(data: seq<Byte>, p: nat, gs: seq<Three<Quant>>, rest: seq<Byte>)
    requires AllProgNibbles(gs) && p <= |data| && data[p..] == ProgsBytes(gs) + rest
    ensures var end := p + |ProgsBytes(gs)|;
            ReadProgs(data, p, |gs|) == Some((gs, end)) && end <= |data| && data[end..] == rest
    decreases |gs|
  {
    hide ReadProg, ProgBytes, ProgNibbles;
    if gs != [] {
      var more := ProgsBytes(gs[1..]);
      assert data[p..] == ProgBytes(gs[0]) + (more + rest);
      ProgBack(data, p, gs[0], more + rest);
      ProgsBack(data, p + 16, gs[1..], rest);
      assert [gs[0]] + gs[1..] == gs;
    }
  }

  predicate RectFits(r: Rect) {
    r.x < 0x1_0000 && r.y < 0x1_0000 && r.w < 0x1_0000 && r.h < 0x1_0000
  }

  function RectBytes(r: Rect): (s: seq<Byte>)
    requires RectFits(r)
    ensures |s| == 8
  {
    Le16Bytes(r.x) + (Le16Bytes(r.y) + (Le16Bytes(r.w) + Le16Bytes(r.h)))
  }

  predicate AllRectsFit(rs: seq<Rect>) {
    forall i :: 0 <= i < |rs| ==> RectFits(rs[i])
  }

  function RectsBytes(rs: seq<Rect>): seq<Byte>
    requires AllRectsFit(rs)
  {
    if rs == [] then [] else RectBytes(rs[0]) + RectsBytes(rs[1..])
  }

  lemma RectBack(data: seq<Byte>, p: nat, r: Rect, rest: seq<Byte>)
    requires RectFits(r) && p <= |data| && data[p..] == RectBytes(r) + rest
    ensures p + 8 <= |data| && data[p + 8..] == rest
    ensures Field16(data, p) == r.x && Field16(data, p + 2) == r.y && Field16(data, p + 4) == r.w && Field16(data, p + 6) == r.h
  {
    hide Le16Bytes, Field16;
    var r3 := Le16Bytes(r.h) + rest;
    var r2 := Le16Bytes(r.w) + r3;
    var r1 := Le16Bytes(r.y) + r2;
    assert data[p..] == Le16Bytes(r.x) + r1;
    Field16Back(data, p, r.x, r1);
    Field16Back(data, p + 2, r.y, r2);
    Field16Back(data, p + 4, r.w, r3);
    Field16Back(data, p + 6, r.h, rest);
  }

  lemma {:induction false} RectsBack(data: seq<Byte>, p: nat, rs: seq<Rect>, rest: seq<Byte>)
    requires AllRectsFit(rs) && p <= |data| && data[p..] == RectsBytes(rs) + rest
    ensures var end := p + |RectsBytes(rs)|;
            ReadRects(data, p, |rs|) == Some((rs, end)) && end <= |data| && data[end..] == rest
    decreases |rs|
  {
    hide Field16, RectBytes;
    if rs != [] {
      var more := RectsBytes(rs[1..]);
      assert data[p..] == RectBytes(rs[0]) + (more + rest);
      RectBack(data, p, rs[0], more + rest);
      RectsBack(data, p + 8, rs[1..], rest);
      assert [rs[0]] + rs[1..] == rs;
    }
  }

  // ---------- A region ----------

  ghost predicate RegionFits(r: Region) {
    && |r.rects| < 0x1_0000 && |r.tables.quants| < 0x100 && |r.tables.progs| < 0x100 && |r.tiles| < 0x1_0000_0000
    && AllRectsFit(r.rects) && AllNibbles(r.tables.quants) && AllProgNibbles(r.tables.progs)
  }

  /** The number of tiles, which the client does not look at, is the sender's choice. */
  function RegionHeader(r: Region, count: U16): (s: seq<Byte>)
    requires RegionFits(r)
    ensures |s| == REGION_HEADER
  {
    [TILE] + (Le16Bytes(|r.rects|) + ([|r.tables.quants|, |r.tables.progs|, if r.tables.extrapolate then 1 else 0]
    + (Le16Bytes(count) + Le32Bytes(|r.tiles|))))
  }

  function RegionBody(r: Region, count: U16): seq<Byte>
    requires RegionFits(r)
  {
    RegionHeader(r, count) + (RectsBytes(r.rects) + (QuantsBytes(r.tables.quants) + (ProgsBytes(r.tables.progs) + r.tiles)))
  }

  lemma HeaderBack(body: seq<Byte>, r: Region, count: U16, rest: seq<Byte>)
    requires RegionFits(r) && body == RegionHeader(r, count) + rest
    ensures |body| >= REGION_HEADER && body[0] == TILE && Field16(body, 1) == |r.rects|
    ensures body[3] == |r.tables.quants| && body[4] == |r.tables.progs| && (body[5] % 2 == 1 <==> r.tables.extrapolate)
    ensures Le32(body[8], body[9], body[10], body[11]) == |r.tiles| && body[REGION_HEADER..] == rest
  {
    hide Le16Bytes, Le32Bytes, Le32, Field16;
    var counts := [|r.tables.quants|, |r.tables.progs|, if r.tables.extrapolate then 1 else 0];
    var r2 := Le16Bytes(count) + (Le32Bytes(|r.tiles|) + rest);
    assert body[0..] == body == [TILE] + (Le16Bytes(|r.rects|) + (counts + r2));
    ByteBack(body, 0, TILE, Le16Bytes(|r.rects|) + (counts + r2));
    Field16Back(body, 1, |r.rects|, counts + r2);
    SliceBack(body, 3, counts, r2);
    assert body[3] == body[3..6][0] && body[4] == body[3..6][1] && body[5] == body[3..6][2];
    Field16Back(body, 6, count, Le32Bytes(|r.tiles|) + rest);
    Field32Back(body, 8, |r.tiles|, rest);
  }

  lemma Field32Back(data: seq<Byte>, at: nat, v: U32, rest: seq<Byte>)
    requires at <= |data| && data[at..] == Le32Bytes(v) + rest
    ensures at + 4 <= |data| && Le32(data[at], data[at + 1], data[at + 2], data[at + 3]) == v && data[at + 4..] == rest
  {
    hide Le32Bytes, Le32;
    var w := Le32Bytes(v);
    SliceBack(data, at, w, rest);
    var f := data[at..at + 4];
    assert data[at] == f[0] && data[at + 1] == f[1] && data[at + 2] == f[2] && data[at + 3] == f[3];
  }

  /** A region is read back from its bytes. */
  lemma RegionBack(r: Region, count: U16)
    requires RegionFits(r)
    ensures ReadRegion(RegionBody(r, count)) == Some(r)
  {
    hide RegionHeader, Le16Bytes, Le32Bytes, Le32, Field16, ReadRects, ReadQuants, ReadProgs, RectsBytes, QuantsBytes, ProgsBytes,
         AllRectsFit, AllNibbles, AllProgNibbles;
    var body := RegionBody(r, count);
    var r3 := ProgsBytes(r.tables.progs) + r.tiles;
    var r2 := QuantsBytes(r.tables.quants) + r3;
    HeaderBack(body, r, count, RectsBytes(r.rects) + r2);
    RectsBack(body, REGION_HEADER, r.rects, r2);
    var p1 := REGION_HEADER + |RectsBytes(r.rects)|;
    QuantsBack(body, p1, r.tables.quants, r3);
    var p2 := p1 + |QuantsBytes(r.tables.quants)|;
    ProgsBack(body, p2, r.tables.progs, r.tiles);
    var p3 := p2 + |ProgsBytes(r.tables.progs)|;
    assert r.tiles + [] == r.tiles;
    BytesBack(body, p3, r.tiles, []);
  }

  // ---------- Blocks ----------

  /** A block: its kind, its length with the header, and its body. */
  function BlockBytes(kind: U16, body: seq<Byte>): seq<Byte>
    requires |body| + BLOCK_HEADER < 0x1_0000_0000
  {
    Le16Bytes(kind) + (Le32Bytes(|body| + BLOCK_HEADER) + body)
  }

  lemma BlockBack(data: seq<Byte>, pos: nat, kind: U16, body: seq<Byte>, rest: seq<Byte>)
    requires |body| + BLOCK_HEADER < 0x1_0000_0000
    requires pos <= |data| && data[pos..] == BlockBytes(kind, body) + rest
    ensures pos + BLOCK_HEADER <= |data| && Field16(data, pos) == kind && BlockLength(data, pos) == Some(|body| + BLOCK_HEADER)
    ensures data[pos + BLOCK_HEADER..pos + (|body| + BLOCK_HEADER)] == body && data[pos + (|body| + BLOCK_HEADER)..] == rest
  {
    hide Le16Bytes, Le32Bytes, Le32, Field16;
    var length: U32 := |body| + BLOCK_HEADER;
    assert data[pos..] == Le16Bytes(kind) + (Le32Bytes(length) + (body + rest));
    Field16Back(data, pos, kind, Le32Bytes(length) + (body + rest));
    Field32Back(data, pos + 2, length, body + rest);
    SliceBack(data, pos + 6, body, rest);
  }
}
