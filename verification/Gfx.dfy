/** `gfx.rs`: graphics PDUs (section 2.2.2 of MS-RDPEGFX) and splitting a message into them. */
module Gfx {
  import opened Machine
  import opened Seqs
  import opened Bytes
  import opened Screens

  /** Right and bottom are exclusive. */
  datatype RectU16 = RectU16(left: U16, top: U16, right: U16, bottom: U16) {
    /** None for a rectangle whose edges are swapped. */
    function Size(): (r: Option<(U16, U16)>)
      ensures r.Some? <==> left <= right && top <= bottom
      ensures r.Some? ==> left as int + r.value.0 == right && top as int + r.value.1 == bottom
    {
      if right < left || bottom < top then None else Some((right - left, bottom - top))
    }
  }

  datatype Pdu =
    | CapsConfirm
    | ResetGraphics(width: U32, height: U32)
    | CreateSurface(surface: U16, w: U16, h: U16, format: Byte)
    | DeleteSurface(surface: U16)
    | MapSurfaceToOutput(surface: U16, x: U32, y: U32)
    | StartFrame(frame: U32)
    | EndFrame(frame: U32)
    | WireToSurface1(surface: U16, codec: U16, format: Byte, dest: RectU16, bitmap: seq<Byte>)
    | WireToSurface2(surface: U16, codec: U16, bitmap: seq<Byte>)
    | SolidFill(surface: U16, colour: seq<Byte>, rects: seq<RectU16>)
    | SurfaceToSurface(source: U16, rect: RectU16, surface: U16, points: seq<Point>)
    | SurfaceToCache(surface: U16, slot: U16, rect: RectU16)
    | CacheToSurface(slot: U16, surface: U16, points: seq<Point>)
    | EvictCacheEntry(slot: U16)
    | DeleteEncodingContext(surface: U16, context: U32)
    | Other(command: U16)

  const CMD_WIRE_TO_SURFACE_1 := 0x0001
  const CMD_WIRE_TO_SURFACE_2 := 0x0002
  const CMD_DELETE_ENCODING_CONTEXT := 0x0003
  const CMD_SOLID_FILL := 0x0004
  const CMD_SURFACE_TO_SURFACE := 0x0005
  const CMD_SURFACE_TO_CACHE := 0x0006
  const CMD_CACHE_TO_SURFACE := 0x0007
  const CMD_EVICT_CACHE_ENTRY := 0x0008
  const CMD_CREATE_SURFACE := 0x0009
  const CMD_DELETE_SURFACE := 0x000A
  const CMD_START_FRAME := 0x000B
  const CMD_END_FRAME := 0x000C
  const CMD_RESET_GRAPHICS := 0x000E
  const CMD_MAP_SURFACE_TO_OUTPUT := 0x000F
  const CMD_CAPS_CONFIRM := 0x0013

  // ---------- Fields ----------

  function At16(b: seq<Byte>, p: nat): U16
    requires p + 2 <= |b|
  {
    Le16(b[p], b[p + 1])
  }

  function At32(b: seq<Byte>, p: nat): U32
    requires p + 4 <= |b|
  {
    Le32(b[p], b[p + 1], b[p + 2], b[p + 3])
  }

  function RectAt(b: seq<Byte>, p: nat): RectU16
    requires p + 8 <= |b|
  {
    RectU16(At16(b, p), At16(b, p + 2), At16(b, p + 4), At16(b, p + 6))
  }

  /** `n` rectangles from `p` on; bytes behind the last one are ignored. */
  function RectsAt(b: seq<Byte>, p: nat, n: nat): Option<seq<RectU16>>
    decreases n
  {
    if n == 0 then Some([])
    else if p + 8 > |b| then None
    else
      match RectsAt(b, p + 8, n - 1)
      case None => None
      case Some(more) => Some([RectAt(b, p)] + more)
  }

  function PointsAt(b: seq<Byte>, p: nat, n: nat): Option<seq<Point>>
    decreases n
  {
    if n == 0 then Some([])
    else if p + 4 > |b| then None
    else
      match PointsAt(b, p + 4, n - 1)
      case None => None
      case Some(more) => Some([Point(At16(b, p), At16(b, p + 2))] + more)
  }

  // ---------- One PDU ----------

  function ParseWire1(b: seq<Byte>): Option<Pdu> {
    if |b| < 17 || 17 + At32(b, 13) > |b| then None
    else Some(WireToSurface1(At16(b, 0), At16(b, 2), b[4], RectAt(b, 5), b[17..17 + At32(b, 13)]))
  }

  function ParseWire2(b: seq<Byte>): Option<Pdu> {
    if |b| < 13 || 13 + At32(b, 9) > |b| then None else Some(WireToSurface2(At16(b, 0), At16(b, 2), b[13..13 + At32(b, 9)]))
  }

  function ParseFill(b: seq<Byte>): Option<Pdu> {
    if |b| < 8 then None
    else
      match RectsAt(b, 8, At16(b, 6))
      case None => None
      case Some(rects) => Some(SolidFill(At16(b, 0), b[2..6], rects))
  }

  function ParseCopy(b: seq<Byte>): Option<Pdu> {
    if |b| < 14 then None
    else
      match PointsAt(b, 14, At16(b, 12))
      case None => None
      case Some(points) => Some(SurfaceToSurface(At16(b, 0), RectAt(b, 4), At16(b, 2), points))
  }

  function ParseRecall(b: seq<Byte>): Option<Pdu> {
    if |b| < 6 then None
    else
      match PointsAt(b, 6, At16(b, 4))
      case None => None
      case Some(points) => Some(CacheToSurface(At16(b, 0), At16(b, 2), points))
  }

  /** The PDUs without variable parts; a body may be longer than its fields. */
  function ParseFixed(command: U16, b: seq<Byte>): Option<Pdu> {
    if command == CMD_CAPS_CONFIRM then Some(CapsConfirm)
    else if command == CMD_RESET_GRAPHICS then if |b| < 8 then None else Some(ResetGraphics(At32(b, 0), At32(b, 4)))
    else if command == CMD_CREATE_SURFACE then
      if |b| < 7 then None else Some(CreateSurface(At16(b, 0), At16(b, 2), At16(b, 4), b[6]))
    else if command == CMD_DELETE_SURFACE then if |b| < 2 then None else Some(DeleteSurface(At16(b, 0)))
    else if command == CMD_MAP_SURFACE_TO_OUTPUT then
      if |b| < 12 then None else Some(MapSurfaceToOutput(At16(b, 0), At32(b, 4), At32(b, 8)))
    else if command == CMD_START_FRAME then if |b| < 8 then None else Some(StartFrame(At32(b, 4)))
    else if command == CMD_END_FRAME then if |b| < 4 then None else Some(EndFrame(At32(b, 0)))
    else if command == CMD_SURFACE_TO_CACHE then
      if |b| < 20 then None else Some(SurfaceToCache(At16(b, 0), At16(b, 10), RectAt(b, 12)))
    else if command == CMD_DELETE_ENCODING_CONTEXT then
      if |b| < 6 then None else Some(DeleteEncodingContext(At16(b, 0), At32(b, 2)))
    else if command == CMD_EVICT_CACHE_ENTRY then if |b| < 2 then None else Some(EvictCacheEntry(At16(b, 0)))
    else Some(Other(command))
  }

  function ParseBody(command: U16, b: seq<Byte>): Option<Pdu> {
    if command == CMD_WIRE_TO_SURFACE_1 then ParseWire1(b)
    else if command == CMD_WIRE_TO_SURFACE_2 then ParseWire2(b)
    else if command == CMD_SOLID_FILL then ParseFill(b)
    else if command == CMD_SURFACE_TO_SURFACE then ParseCopy(b)
    else if command == CMD_CACHE_TO_SURFACE then ParseRecall(b)
    else ParseFixed(command, b)
  }

  // ---------- Messages ----------

  /** A PDU, or the command of one whose body could not be parsed. */
  datatype Entry = Parsed(pdu: Pdu) | Failed(command: U16)

  const HEADER := 8

  function EntryOf(command: U16, body: seq<Byte>): Entry {
    match ParseBody(command, body)
    case Some(pdu) => Parsed(pdu)
    case None => Failed(command)
  }

  /** The PDUs from `p` on; None if a length or a trailing piece makes the rest unreadable. */
  function Split(data: seq<Byte>, p: nat): Option<seq<Entry>>
    requires p <= |data|
    decreases |data| - p
  {
    if |data| - p < HEADER then if p == |data| then Some([]) else None
    else
      var length := At32(data, p + 4);
      if length < HEADER || p + length > |data| then None
      else
        match Split(data, p + length)
        case None => None
        case Some(more) => Some([EntryOf(At16(data, p), data[p + HEADER..p + length])] + more)
  }

  // ---------- Senders ----------

  /** Any PDU as a sender frames it; the flags are ignored by the client. */
  datatype Framed = Framed(command: U16, flags: U16, body: seq<Byte>)

  ghost predicate WellFramed(f: Framed) {
    HEADER + |f.body| < 0x1_0000_0000
  }

  ghost predicate AllFramed(fs: seq<Framed>) {
    forall i :: 0 <= i < |fs| ==> WellFramed(fs[i])
  }

  function Frame(f: Framed): seq<Byte>
    requires WellFramed(f)
  {
    Le16Bytes(f.command) + (Le16Bytes(f.flags) + (Le32Bytes(HEADER + |f.body|) + f.body))
  }

  function FrameAll(fs: seq<Framed>): seq<Byte>
    requires AllFramed(fs)
  {
    if fs == [] then [] else Frame(fs[0]) + FrameAll(fs[1..])
  }

  function Entries(fs: seq<Framed>): (r: seq<Entry>)
    ensures |r| == |fs|
  {
    seq(|fs|, i requires 0 <= i < |fs| => EntryOf(fs[i].command, fs[i].body))
  }

  lemma FrameBack(data: seq<Byte>, p: nat, f: Framed, rest: seq<Byte>)
    requires WellFramed(f) && p <= |data| && data[p..] == Frame(f) + rest
    ensures var end := p + HEADER + |f.body|;
            && end <= |data| && At16(data, p) == f.command && At32(data, p + 4) == HEADER + |f.body|
            && data[p + HEADER..end] == f.body && data[end..] == rest
  {
    hide Le16Bytes, Le32Bytes, Le16, Le32;
    var r3 := f.body + rest;
    var r2 := Le32Bytes(HEADER + |f.body|) + r3;
    var r1 := Le16Bytes(f.flags) + r2;
    assert data[p..] == Le16Bytes(f.command) + r1;
    U16Back(data, p, f.command, r1);
    U16Back(data, p + 2, f.flags, r2);
    U32Back(data, p + 4, HEADER + |f.body|, r3);
    BytesBack(data, p + 8, f.body, rest);
  }

  lemma {:induction false} SplitFrom(data: seq<Byte>, p: nat, fs: seq<Framed>)
    requires AllFramed(fs)
    requires p <= |data| && data[p..] == FrameAll(fs)
    ensures Split(data, p) == Some(Entries(fs))
    decreases |fs|
  {
    hide Frame, EntryOf, At16, At32;
    if fs != [] {
      assert WellFramed(fs[0]);
      FrameBack(data, p, fs[0], FrameAll(fs[1..]));
      SplitFrom(data, p + HEADER + |fs[0].body|, fs[1..]);
      assert Entries(fs) == [EntryOf(fs[0].command, fs[0].body)] + Entries(fs[1..]);
    }
  }

  /** Splitting what a sender concatenates returns exactly its PDUs, in order; a body that does not parse is only marked. */
  lemma SplitReturnsAll(fs: seq<Framed>)
    requires AllFramed(fs)
    ensures Split(FrameAll(fs), 0) == Some(Entries(fs))
  {
    var data := FrameAll(fs);
    assert data[0..] == data;
    SplitFrom(data, 0, fs);
  }

  // ---------- Encoding the PDUs the client understands ----------

  function RectBytes(r: RectU16): (b: seq<Byte>)
    ensures |b| == 8
  {
    Le16Bytes(r.left) + Le16Bytes(r.top) + Le16Bytes(r.right) + Le16Bytes(r.bottom)
  }

  function RectsBytes(rs: seq<RectU16>): seq<Byte> {
    if rs == [] then [] else RectBytes(rs[0]) + RectsBytes(rs[1..])
  }

  function PointsBytes(ps: seq<Point>): seq<Byte> {
    if ps == [] then [] else Le16Bytes(ps[0].x) + Le16Bytes(ps[0].y) + PointsBytes(ps[1..])
  }

  predicate Encodable(p: Pdu) {
    match p
    case WireToSurface1(_, _, _, _, bitmap) => |bitmap| < 0xFFFF_FF00
    case WireToSurface2(_, _, bitmap) => |bitmap| < 0xFFFF_FF00
    case SolidFill(_, colour, rects) => |colour| == 4 && |rects| < 0x1_0000
    case SurfaceToSurface(_, _, _, points) => |points| < 0x1_0000
    case CacheToSurface(_, _, points) => |points| < 0x1_0000
    case Other(_) => false
    case _ => true
  }

  function CommandOf(p: Pdu): U16 {
    match p
    case CapsConfirm => CMD_CAPS_CONFIRM
    case ResetGraphics(_, _) => CMD_RESET_GRAPHICS
    case CreateSurface(_, _, _, _) => CMD_CREATE_SURFACE
    case DeleteSurface(_) => CMD_DELETE_SURFACE
    case MapSurfaceToOutput(_, _, _) => CMD_MAP_SURFACE_TO_OUTPUT
    case StartFrame(_) => CMD_START_FRAME
    case EndFrame(_) => CMD_END_FRAME
    case WireToSurface1(_, _, _, _, _) => CMD_WIRE_TO_SURFACE_1
    case WireToSurface2(_, _, _) => CMD_WIRE_TO_SURFACE_2
    case SolidFill(_, _, _) => CMD_SOLID_FILL
    case SurfaceToSurface(_, _, _, _) => CMD_SURFACE_TO_SURFACE
    case SurfaceToCache(_, _, _) => CMD_SURFACE_TO_CACHE
    case CacheToSurface(_, _, _) => CMD_CACHE_TO_SURFACE
    case EvictCacheEntry(_) => CMD_EVICT_CACHE_ENTRY
    case DeleteEncodingContext(_, _) => CMD_DELETE_ENCODING_CONTEXT
    case Other(command) => command
  }

  /** Bodies as section 2.2.2 of MS-RDPEGFX lays them out; fields the client ignores are zero. */
  function BodyOf(p: Pdu): seq<Byte>
    requires Encodable(p)
  {
    match p
    case CapsConfirm => []
    case ResetGraphics(w, h) => Le32Bytes(w) + Le32Bytes(h)
    case CreateSurface(id, w, h, format) => Le16Bytes(id) + Le16Bytes(w) + Le16Bytes(h) + [format]
    case DeleteSurface(id) => Le16Bytes(id)
    case MapSurfaceToOutput(id, x, y) => Le16Bytes(id) + [0, 0] + Le32Bytes(x) + Le32Bytes(y)
    case StartFrame(frame) => [0, 0, 0, 0] + Le32Bytes(frame)
    case EndFrame(frame) => Le32Bytes(frame)
    case WireToSurface1(id, codec, format, dest, bitmap) =>
      Le16Bytes(id) + Le16Bytes(codec) + [format] + RectBytes(dest) + Le32Bytes(|bitmap|) + bitmap
    case WireToSurface2(id, codec, bitmap) => Le16Bytes(id) + Le16Bytes(codec) + [0, 0, 0, 0, 0] + Le32Bytes(|bitmap|) + bitmap
    case SolidFill(id, colour, rects) => Le16Bytes(id) + colour + Le16Bytes(|rects|) + RectsBytes(rects)
    case SurfaceToSurface(from, rect, to, points) =>
      Le16Bytes(from) + Le16Bytes(to) + RectBytes(rect) + Le16Bytes(|points|) + PointsBytes(points)
    case SurfaceToCache(id, slot, rect) => Le16Bytes(id) + [0, 0, 0, 0, 0, 0, 0, 0] + Le16Bytes(slot) + RectBytes(rect)
    case CacheToSurface(slot, id, points) => Le16Bytes(slot) + Le16Bytes(id) + Le16Bytes(|points|) + PointsBytes(points)
    case EvictCacheEntry(slot) => Le16Bytes(slot)
    case DeleteEncodingContext(id, context) => Le16Bytes(id) + Le32Bytes(context)
  }

  lemma Field16Is(b: seq<Byte>, p: nat, v: U16)
    requires p + 2 <= |b| && b[p..p + 2] == Le16Bytes(v)
    ensures At16(b, p) == v
  {
    hide Le16, Le16Bytes;
    var w := b[p..p + 2];
    assert w[0] == b[p] && w[1] == b[p + 1];
  }

  lemma Field32Is(b: seq<Byte>, p: nat, v: U32)
    requires p + 4 <= |b| && b[p..p + 4] == Le32Bytes(v)
    ensures At32(b, p) == v
  {
    hide Le32, Le32Bytes;
    var w := b[p..p + 4];
    assert w[0] == b[p] && w[1] == b[p + 1] && w[2] == b[p + 2] && w[3] == b[p + 3];
  }

  lemma SubSlice(b: seq<Byte>, p: nat, q: nat, i: nat, j: nat)
    requires p <= q <= |b| && i <= j <= q - p
    ensures b[p..q][i..j] == b[p + i..p + j]
  {
    forall k | 0 <= k < j - i
      ensures b[p..q][i..j][k] == b[p + i..p + j][k]
    {
    }
  }

  lemma RectIs(b: seq<Byte>, p: nat, r: RectU16)
    requires p + 8 <= |b| && b[p..p + 8] == RectBytes(r)
    ensures RectAt(b, p) == r
  {
    hide At16, Le16Bytes;
    var w := b[p..p + 8];
    SubSlice(b, p, p + 8, 0, 2);
    SubSlice(b, p, p + 8, 2, 4);
    SubSlice(b, p, p + 8, 4, 6);
    SubSlice(b, p, p + 8, 6, 8);
    assert w[0..2] == Le16Bytes(r.left) && w[2..4] == Le16Bytes(r.top) && w[4..6] == Le16Bytes(r.right) && w[6..8] == Le16Bytes(r.bottom);
    Field16Is(b, p, r.left);
    Field16Is(b, p + 2, r.top);
    Field16Is(b, p + 4, r.right);
    Field16Is(b, p + 6, r.bottom);
  }

  lemma {:induction false} RectsBack(b: seq<Byte>, p: nat, rs: seq<RectU16>)
    requires p <= |b| && b[p..] == RectsBytes(rs)
    ensures RectsAt(b, p, |rs|) == Some(rs)
    decreases |rs|
  {
    hide RectAt, RectBytes;
    if rs != [] {
      var first := RectBytes(rs[0]);
      Advance(b, p, first, RectsBytes(rs[1..]), []);
      assert first + RectsBytes(rs[1..]) + [] == first + RectsBytes(rs[1..]);
      assert RectsBytes(rs[1..]) + [] == RectsBytes(rs[1..]);
      RectIs(b, p, rs[0]);
      RectsBack(b, p + 8, rs[1..]);
      assert [rs[0]] + rs[1..] == rs;
    }
  }

  lemma {:induction false} PointsBack(b: seq<Byte>, p: nat, ps: seq<Point>)
    requires p <= |b| && b[p..] == PointsBytes(ps)
    ensures PointsAt(b, p, |ps|) == Some(ps)
    decreases |ps|
  {
    hide At16, Le16Bytes;
    if ps != [] {
      var x, y, more := Le16Bytes(ps[0].x), Le16Bytes(ps[0].y), PointsBytes(ps[1..]);
      var tail := b[p..];
      assert tail == x + (y + more);
      assert b[p..p + 2] == tail[0..2] == x && b[p + 2..p + 4] == tail[2..4] == y && b[p + 4..] == tail[4..] == more;
      Field16Is(b, p, ps[0].x);
      Field16Is(b, p + 2, ps[0].y);
      PointsBack(b, p + 4, ps[1..]);
      assert [ps[0]] + ps[1..] == ps;
    }
  }

  // ---------- Every PDU survives encoding ----------

  lemma Wire1Back(p: Pdu)
    requires p.WireToSurface1? && Encodable(p)
    ensures ParseWire1(BodyOf(p)) == Some(p)
  {
    hide At16, At32, RectAt, Le16Bytes, Le32Bytes, RectBytes;
    var b := BodyOf(p);
    Field16Is(b, 0, p.surface);
    Field16Is(b, 2, p.codec);
    RectIs(b, 5, p.dest);
    Field32Is(b, 13, |p.bitmap|);
    assert b[17..17 + |p.bitmap|] == p.bitmap;
  }

  lemma Wire2Back(p: Pdu)
    requires p.WireToSurface2? && Encodable(p)
    ensures ParseWire2(BodyOf(p)) == Some(p)
  {
    hide At16, At32, Le16Bytes, Le32Bytes;
    var b := BodyOf(p);
    Field16Is(b, 0, p.surface);
    Field16Is(b, 2, p.codec);
    Field32Is(b, 9, |p.bitmap|);
    assert b[13..13 + |p.bitmap|] == p.bitmap;
  }

  lemma FillBack(p: Pdu)
    requires p.SolidFill? && Encodable(p)
    ensures ParseFill(BodyOf(p)) == Some(p)
  {
    hide At16, Le16Bytes, RectsAt, RectsBytes;
    var b := BodyOf(p);
    Field16Is(b, 0, p.surface);
    assert b[2..6] == p.colour;
    Field16Is(b, 6, |p.rects|);
    assert b[8..] == RectsBytes(p.rects);
    RectsBack(b, 8, p.rects);
  }

  lemma CopyBack(p: Pdu)
    requires p.SurfaceToSurface? && Encodable(p)
    ensures ParseCopy(BodyOf(p)) == Some(p)
  {
    hide At16, RectAt, Le16Bytes, RectBytes, PointsAt, PointsBytes;
    var b := BodyOf(p);
    Field16Is(b, 0, p.source);
    Field16Is(b, 2, p.surface);
    RectIs(b, 4, p.rect);
    Field16Is(b, 12, |p.points|);
    assert b[14..] == PointsBytes(p.points);
    PointsBack(b, 14, p.points);
  }

  lemma RecallBack(p: Pdu)
    requires p.CacheToSurface? && Encodable(p)
    ensures ParseRecall(BodyOf(p)) == Some(p)
  {
    hide At16, Le16Bytes, PointsAt, PointsBytes;
    var b := BodyOf(p);
    Field16Is(b, 0, p.slot);
    Field16Is(b, 2, p.surface);
    Field16Is(b, 4, |p.points|);
    assert b[6..] == PointsBytes(p.points);
    PointsBack(b, 6, p.points);
  }

  lemma StoreBack(p: Pdu)
    requires p.SurfaceToCache?
    ensures ParseFixed(CMD_SURFACE_TO_CACHE, BodyOf(p)) == Some(p)
  {
    hide At16, At32, RectAt, Le16Bytes, RectBytes;
    var b := BodyOf(p);
    Field16Is(b, 0, p.surface);
    Field16Is(b, 10, p.slot);
    RectIs(b, 12, p.rect);
  }

  lemma MapBack(p: Pdu)
    requires p.MapSurfaceToOutput?
    ensures ParseFixed(CMD_MAP_SURFACE_TO_OUTPUT, BodyOf(p)) == Some(p)
  {
    hide At16, At32, Le16Bytes, Le32Bytes;
    var b := BodyOf(p);
    Field16Is(b, 0, p.surface);
    Field32Is(b, 4, p.x);
    Field32Is(b, 8, p.y);
  }

  lemma CreateBack(p: Pdu)
    requires p.CreateSurface?
    ensures ParseFixed(CMD_CREATE_SURFACE, BodyOf(p)) == Some(p)
  {
    hide At16, At32, Le16Bytes;
    var b := BodyOf(p);
    Field16Is(b, 0, p.surface);
    Field16Is(b, 2, p.w);
    Field16Is(b, 4, p.h);
  }

  lemma SmallBack(p: Pdu)
    requires Encodable(p) && (p.DeleteSurface? || p.EvictCacheEntry? || p.DeleteEncodingContext? || p.CapsConfirm?)
    ensures ParseFixed(CommandOf(p), BodyOf(p)) == Some(p)
  {
    hide At16, At32, Le16Bytes, Le32Bytes;
    var b := BodyOf(p);
    if p.DeleteSurface? || p.DeleteEncodingContext? {
      Field16Is(b, 0, p.surface);
    }
    if p.EvictCacheEntry? {
      Field16Is(b, 0, p.slot);
    }
    if p.DeleteEncodingContext? {
      Field32Is(b, 2, p.context);
    }
  }

  lemma FrameMarkBack(p: Pdu)
    requires p.ResetGraphics? || p.StartFrame? || p.EndFrame?
    ensures ParseFixed(CommandOf(p), BodyOf(p)) == Some(p)
  {
    hide At16, At32, Le16Bytes, Le32Bytes;
    var b := BodyOf(p);
    if p.ResetGraphics? {
      Field32Is(b, 0, p.width);
      Field32Is(b, 4, p.height);
    } else if p.StartFrame? {
      Field32Is(b, 4, p.frame);
    } else {
      Field32Is(b, 0, p.frame);
    }
  }

  /** Every PDU a sender can express is parsed back to itself. */
  lemma PduRoundTrip(p: Pdu)
    requires Encodable(p)
    ensures ParseBody(CommandOf(p), BodyOf(p)) == Some(p)
  {
    hide ParseWire1, ParseWire2, ParseFill, ParseCopy, ParseRecall, ParseFixed, BodyOf;
    match p
    case WireToSurface1(_, _, _, _, _) => Wire1Back(p);
    case WireToSurface2(_, _, _) => Wire2Back(p);
    case SolidFill(_, _, _) => FillBack(p);
    case SurfaceToSurface(_, _, _, _) => CopyBack(p);
    case CacheToSurface(_, _, _) => RecallBack(p);
    case SurfaceToCache(_, _, _) => StoreBack(p);
    case MapSurfaceToOutput(_, _, _) => MapBack(p);
    case CreateSurface(_, _, _, _) => CreateBack(p);
    case ResetGraphics(_, _) => FrameMarkBack(p);
    case StartFrame(_) => FrameMarkBack(p);
    case EndFrame(_) => FrameMarkBack(p);
    case _ => SmallBack(p);
  }

  ghost predicate Sendable(p: Pdu) {
    Encodable(p) && HEADER + |BodyOf(p)| < 0x1_0000_0000
  }

  ghost predicate AllSendable(ps: seq<Pdu>) {
    forall i :: 0 <= i < |ps| ==> Sendable(ps[i])
  }

  function FramedOf(p: Pdu): (f: Framed)
    requires Sendable(p)
    ensures WellFramed(f)
  {
    Framed(CommandOf(p), 0, BodyOf(p))
  }

  function FramedPdus(ps: seq<Pdu>): (fs: seq<Framed>)
    requires AllSendable(ps)
    ensures |fs| == |ps| && AllFramed(fs) && forall i :: 0 <= i < |fs| ==> Sendable(ps[i]) && fs[i] == FramedOf(ps[i])
  {
    if ps == [] then []
    else
      assert Sendable(ps[0]);
      [FramedOf(ps[0])] + FramedPdus(ps[1..])
  }

  function ParsedAll(ps: seq<Pdu>): (r: seq<Entry>)
    ensures |r| == |ps| && forall i :: 0 <= i < |r| ==> r[i] == Parsed(ps[i])
  {
    seq(|ps|, i requires 0 <= i < |ps| => Parsed(ps[i]))
  }

  /** A message that a sender builds from PDUs is split and parsed into exactly these PDUs. */
  lemma MessageRoundTrip(ps: seq<Pdu>)
    requires AllSendable(ps)
    ensures Split(FrameAll(FramedPdus(ps)), 0) == Some(ParsedAll(ps))
  {
    hide Split, FrameAll, ParseBody, BodyOf, FramedPdus;
    var fs := FramedPdus(ps);
    SplitReturnsAll(fs);
    forall i | 0 <= i < |ps|
      ensures Entries(fs)[i] == Parsed(ps[i])
    {
      assert Sendable(ps[i]);
      PduRoundTrip(ps[i]);
    }
    assert Entries(fs) == ParsedAll(ps);
  }
}

/** The parsing loops of `gfx.rs`, proved against module Gfx. */
module GfxParser {
  import opened Machine
  import opened Screens
  import opened Gfx

  method ParseRects(b: seq<Byte>, start: nat, count: nat) returns (r: Option<seq<RectU16>>)
    ensures r == RectsAt(b, start, count)
  {
    hide RectAt, RectsAt;
    var pos: nat := start;
    var list: seq<RectU16> := [];
    ghost var all := RectsAt(b, start, count);
    for i := 0 to count
      invariant all.None? <==> RectsAt(b, pos, count - i).None?
      invariant all.Some? ==> all.value == list + RectsAt(b, pos, count - i).value
    {
      RectsStep(b, pos, count - i);
      if pos + 8 > |b| {
        return None;
      }
      list := list + [RectAt(b, pos)];
      pos := pos + 8;
    }
    RectsStep(b, pos, 0);
    assert list + [] == list;
    return Some(list);
  }

  lemma RectsStep(b: seq<Byte>, p: nat, n: nat)
    ensures n == 0 ==> RectsAt(b, p, n) == Some([])
    ensures n > 0 && p + 8 > |b| ==> RectsAt(b, p, n) == None
    ensures n > 0 && p + 8 <= |b| ==>
              RectsAt(b, p, n) ==
              match RectsAt(b, p + 8, n - 1)
              case None => None
              case Some(more) => Some([RectAt(b, p)] + more)
  {
  }

  method ParsePoints(b: seq<Byte>, start: nat, count: nat) returns (r: Option<seq<Point>>)
    ensures r == PointsAt(b, start, count)
  {
    hide At16, PointsAt;
    var pos: nat := start;
    var list: seq<Point> := [];
    ghost var all := PointsAt(b, start, count);
    for i := 0 to count
      invariant all.None? <==> PointsAt(b, pos, count - i).None?
      invariant all.Some? ==> all.value == list + PointsAt(b, pos, count - i).value
    {
      PointsStep(b, pos, count - i);
      if pos + 4 > |b| {
        return None;
      }
      list := list + [Point(At16(b, pos), At16(b, pos + 2))];
      pos := pos + 4;
    }
    PointsStep(b, pos, 0);
    assert list + [] == list;
    return Some(list);
  }

  lemma PointsStep(b: seq<Byte>, p: nat, n: nat)
    ensures n == 0 ==> PointsAt(b, p, n) == Some([])
    ensures n > 0 && p + 4 > |b| ==> PointsAt(b, p, n) == None
    ensures n > 0 && p + 4 <= |b| ==>
              PointsAt(b, p, n) ==
              match PointsAt(b, p + 4, n - 1)
              case None => None
              case Some(more) => Some([Point(At16(b, p), At16(b, p + 2))] + more)
  {
  }

  method ParsePdu(command: U16, body: seq<Byte>) returns (r: Option<Pdu>)
    ensures r == ParseBody(command, body)
  {
    hide At16, At32, RectAt, RectsAt, PointsAt;
    if command == CMD_SOLID_FILL {
      if |body| < 8 {
        return None;
      }
      var rects := ParseRects(body, 8, At16(body, 6));
      if rects.None? {
        return None;
      }
      return Some(SolidFill(At16(body, 0), body[2..6], rects.value));
    } else if command == CMD_SURFACE_TO_SURFACE {
      if |body| < 14 {
        return None;
      }
      var points := ParsePoints(body, 14, At16(body, 12));
      if points.None? {
        return None;
      }
      return Some(SurfaceToSurface(At16(body, 0), RectAt(body, 4), At16(body, 2), points.value));
    } else if command == CMD_CACHE_TO_SURFACE {
      if |body| < 6 {
        return None;
      }
      var points := ParsePoints(body, 6, At16(body, 4));
      if points.None? {
        return None;
      }
      return Some(CacheToSurface(At16(body, 0), At16(body, 2), points.value));
    } else {
      return ParseBody(command, body);
    }
  }

  /** Splits a message; a body that does not parse does not stop it, a length that cannot be trusted does. */
  method SplitPdus(data: seq<Byte>) returns (r: Option<seq<Entry>>)
    ensures r == Split(data, 0)
  {
    hide At16, At32, ParseBody, Split;
    var pos: nat := 0;
    var out: seq<Entry> := [];
    ghost var all := Split(data, 0);
    while |data| - pos >= HEADER
      invariant pos <= |data|
      invariant all.None? <==> Split(data, pos).None?
      invariant all.Some? ==> all.value == out + Split(data, pos).value
      decreases |data| - pos
    {
      SplitStep(data, pos);
      var command, length: nat := At16(data, pos), At32(data, pos + 4);
      if length < HEADER || length > |data| - pos {
        return None;
      }
      var pdu := ParsePdu(command, data[pos + HEADER..pos + length]);
      out := out + [if pdu.Some? then Parsed(pdu.value) else Failed(command)];
      pos := pos + length;
    }
    SplitEnd(data, pos);
    if pos != |data| {
      return None;
    }
    assert out + [] == out;
    return Some(out);
  }

  lemma SplitStep(data: seq<Byte>, p: nat)
    requires p + HEADER <= |data|
    ensures var length := At32(data, p + 4);
            Split(data, p) ==
            if length < HEADER || p + length > |data| then None
            else
              match Split(data, p + length)
              case None => None
              case Some(more) => Some([EntryOf(At16(data, p), data[p + HEADER..p + length])] + more)
  {
    hide At16, At32, EntryOf;
  }

  lemma SplitEnd(data: seq<Byte>, p: nat)
    requires p <= |data| < p + HEADER
    ensures Split(data, p) == if p == |data| then Some([]) else None
  {
  }
}
