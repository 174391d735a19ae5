/** The surface state machine: what every graphics PDU does to surfaces, caches, decoder states and counters. */
module GfxMachine {
  import opened Machine
  import opened Pixels
  import opened Canvas
  import opened Paints
  import opened Surfaces
  import opened Screens
  import opened Gfx
  import SurfaceManagers
  import TB = TileBlocks
  import R = Regions
  import RP = RegionPaints
  import C = ClearCodec

  const CODEC_UNCOMPRESSED := 0x0000
  const CODEC_CLEARCODEC := 0x0008
  const CODEC_CAPROGRESSIVE := 0x0009

  /**
   The two codecs the machine draws with. A ClearCodec message leads to a new decoder state and
   maybe to a picture of the given size; a Progressive bitstream of a surface leads to an
   update. ClientCodecs in module GfxCodecs are the client's own.
   */
  datatype Codecs = Codecs(clear: (seq<Byte>, C.State, nat, nat) -> (C.State, Option<Image>),
                           progressive: (TB.Baseline, U16, seq<Byte>) -> RP.Update)

  datatype Stats = Stats(frames: nat, wire1: nat, wire2: nat, fills: nat, copies: nat, stores: nat, recalls: nat, evictions: nat,
                         contextDeletes: nat, parseFailures: nat, droppedUpdates: nat, droppedPixels: nat, unhandled: nat)

  /** A surface shown at an output position. */
  datatype Mapping = Mapping(surface: U16, x: U32, y: U32)

  datatype State = State(codecs: Codecs, screen: Screen, clear: C.State, base: TB.Baseline, outputs: seq<Mapping>,
                         desktop: (U32, U32), frames: U32, currentFrame: U32, sawContent: bool, stats: Stats)

  /** Acknowledge a frame; the total counts every frame ended so far. */
  datatype Action = Acknowledge(frame: U32, total: U32)

  // ---------- Counting what was not applied ----------

  function Dropped(st: Stats): Stats {
    st.(droppedUpdates := st.droppedUpdates + 1)
  }

  /** Records an update; anything less than a complete write is a dropped update. */
  function Noted(st: Stats, o: WriteOutcome): Stats {
    if o.Complete() then st
    else st.(droppedUpdates := st.droppedUpdates + 1, droppedPixels := st.droppedPixels + o.Dropped())
  }

  function NotedAll(st: Stats, os: seq<WriteOutcome>): Stats
    decreases |os|
  {
    if os == [] then st else NotedAll(Noted(st, os[0]), os[1..])
  }

  /** What drawing or reading the whole of `r` achieves. */
  function Whole(c: Canvas, r: Rect): WriteOutcome {
    WriteOutcome(r.w * r.h, Visible(c, r), false)
  }

  // ---------- Drawing ----------

  /**
   What a drawing PDU does: the pictures and decoder states it leads to, whether anything was
   drawn at all, the outcomes it has checked, and how many updates it drops besides.
   */
  datatype Effect = Effect(screen: Screen, clear: C.State, base: TB.Baseline, seen: bool, checks: seq<WriteOutcome>, losses: nat)

  function Nothing(s: State): Effect {
    Effect(s.screen, s.clear, s.base, false, [], 0)
  }

  function Loss(s: State): Effect {
    Nothing(s).(losses := 1)
  }

  function SetCanvas(screen: Screen, id: U16, c: Image): Screen {
    screen.(surfaces := screen.surfaces[id := c])
  }

  /** Four bytes to a pixel; up to three bytes at the end are no pixel. */
  function PixelsOf(b: seq<Byte>): (r: seq<Pixel>)
    ensures |r| == |b| / 4
  {
    seq(|b| / 4, i requires 0 <= i < |b| / 4 => Pixel(b[4 * i], b[4 * i + 1], b[4 * i + 2], b[4 * i + 3]))
  }

  function DrawClear(s: State, id: U16, bitmap: seq<Byte>, x: U16, y: U16, w: U16, h: U16): Effect
    requires id in s.screen.surfaces
  {
    var (clear, image) := s.codecs.clear(bitmap, s.clear, w, h);
    match image
    case None => Loss(s).(clear := clear)
    case Some(im) =>
      var c := s.screen.surfaces[id];
      Effect(SetCanvas(s.screen, id, Painted(c, Paint(x, y, im))), clear, s.base, true, [Whole(c, Rect(x, y, w, h))], 0)
  }

  ghost function DrawProgressive(s: State, id: U16, bitmap: seq<Byte>, x: U16, y: U16): Effect
    requires id in s.screen.surfaces
  {
    var u, c := s.codecs.progressive(s.base, id, bitmap), s.screen.surfaces[id];
    Effect(SetCanvas(s.screen, id, PaintAll(c, AllAt(u.paints, (x, y)))), s.clear, u.base, true, [],
           if u.ok && RP.Fits(c, u, (x, y)) then 0 else 1)
  }

  function RawImage(b: seq<Byte>, w: nat, h: nat): Image {
    RowsAreWide(PixelsOf(b), w, RowsReady(w, |PixelsOf(b)|, h));
    Canvas(w, RowsReady(w, |PixelsOf(b)|, h), Source(PixelsOf(b), w, h))
  }

  /** A bitmap that is long enough. */
  function RawDrawn(s: State, id: U16, bitmap: seq<Byte>, x: U16, y: U16, w: U16, h: U16): Effect
    requires id in s.screen.surfaces
  {
    var c := s.screen.surfaces[id];
    Effect(SetCanvas(s.screen, id, Painted(c, Paint(x, y, RawImage(bitmap, w, h)))), s.clear, s.base, true,
           [BlitOutcome(c, x, y, w, h, |PixelsOf(bitmap)|)], 0)
  }

  function DrawRaw(s: State, id: U16, bitmap: seq<Byte>, x: U16, y: U16, w: U16, h: U16): Effect
    requires id in s.screen.surfaces
  {
    if |bitmap| < w * h * 4 then Loss(s) else RawDrawn(s, id, bitmap, x, y, w, h)
  }

  ghost function Draw1(s: State, id: U16, codec: U16, dest: RectU16, bitmap: seq<Byte>): Effect {
    match dest.Size()
    case None => Loss(s)
    case Some((w, h)) =>
      if id !in s.screen.surfaces then Loss(s)
      else
        var e :=
          if codec == CODEC_CLEARCODEC then DrawClear(s, id, bitmap, dest.left, dest.top, w, h)
          else if codec == CODEC_CAPROGRESSIVE then DrawProgressive(s, id, bitmap, dest.left, dest.top)
          else if codec == CODEC_UNCOMPRESSED then DrawRaw(s, id, bitmap, dest.left, dest.top, w, h)
          else Loss(s);
        e.(seen := true)
  }

  ghost function Draw2(s: State, id: U16, codec: U16, bitmap: seq<Byte>): Effect {
    if id !in s.screen.surfaces || codec != CODEC_CAPROGRESSIVE then Loss(s) else DrawProgressive(s, id, bitmap, 0, 0)
  }

  /** A rectangle with swapped edges is left out. */
  function FillAll(c: Image, rects: seq<RectU16>, p: Pixel): (d: Image)
    ensures d.width == c.width && d.height == c.height
    decreases |rects|
  {
    if rects == [] then c
    else
      match rects[0].Size()
      case None => FillAll(c, rects[1..], p)
      case Some((w, h)) => FillAll(Filled(c, Rect(rects[0].left, rects[0].top, w, h), p), rects[1..], p)
  }

  function FillChecks(c: Canvas, rects: seq<RectU16>): seq<WriteOutcome> {
    if rects == [] then []
    else
      (match rects[0].Size()
       case None => []
       case Some((w, h)) => [Whole(c, Rect(rects[0].left, rects[0].top, w, h))])
      + FillChecks(c, rects[1..])
  }

  function SwappedRects(rects: seq<RectU16>): nat {
    if rects == [] then 0 else (if rects[0].Size().None? then 1 else 0) + SwappedRects(rects[1..])
  }

  /** The colour's fourth byte is ignored. */
  function OpaqueColour(b: seq<Byte>): Pixel {
    if |b| < 4 then ABSENT else Pixel(b[0], b[1], b[2], 0xFF)
  }

  function DrawFill(s: State, id: U16, colour: seq<Byte>, rects: seq<RectU16>): Effect {
    if id !in s.screen.surfaces then Loss(s)
    else
      var c := s.screen.surfaces[id];
      Effect(SetCanvas(s.screen, id, FillAll(c, rects, OpaqueColour(colour))), s.clear, s.base, true, FillChecks(c, rects), SwappedRects(rects))
  }

  function DrawCopy(s: State, from: U16, rect: RectU16, to: U16, points: seq<Point>): Effect {
    match rect.Size()
    case None => Loss(s)
    case Some((w, h)) =>
      if from !in s.screen.surfaces then Loss(s)
      else
        var r := Rect(rect.left, rect.top, w, h);
        var read := Whole(s.screen.surfaces[from], r);
        if to !in s.screen.surfaces then Loss(s).(checks := [read])
        else
          Effect(Copied(s.screen, from, r, to, points), s.clear, s.base, true,
                 [read] + SurfaceManagers.StampOutcomes(s.screen.surfaces[to], points, w, h), 0)
  }

  function Store(s: State, id: U16, slot: U16, rect: RectU16): Effect {
    match rect.Size()
    case None => Loss(s)
    case Some((w, h)) =>
      if id !in s.screen.surfaces then Loss(s)
      else
        var r := Rect(rect.left, rect.top, w, h);
        Nothing(s).(screen := Cached(s.screen, id, slot, r), checks := [Whole(s.screen.surfaces[id], r)])
  }

  function Recall(s: State, slot: U16, id: U16, points: seq<Point>): Effect {
    if id !in s.screen.surfaces || slot !in s.screen.cache then Loss(s)
    else
      var cached := s.screen.cache[slot];
      Effect(Recalled(s.screen, slot, id, points), s.clear, s.base, true,
             SurfaceManagers.StampOutcomes(s.screen.surfaces[id], points, cached.width, cached.height), 0)
  }

  ghost function EffectOf(s: State, pdu: Pdu): Effect {
    match pdu
    case WireToSurface1(id, codec, _, dest, bitmap) => Draw1(s, id, codec, dest, bitmap)
    case WireToSurface2(id, codec, bitmap) => Draw2(s, id, codec, bitmap)
    case SolidFill(id, colour, rects) => DrawFill(s, id, colour, rects)
    case SurfaceToSurface(from, rect, to, points) => DrawCopy(s, from, rect, to, points)
    case SurfaceToCache(id, slot, rect) => Store(s, id, slot, rect)
    case CacheToSurface(slot, id, points) => Recall(s, slot, id, points)
    case EvictCacheEntry(slot) => Nothing(s).(screen := Evicted(s.screen, slot))
    case _ => Nothing(s)
  }

  // ---------- Surfaces and outputs ----------

  function Unmapped(outputs: seq<Mapping>, surface: U16): seq<Mapping> {
    if outputs == [] then []
    else (if outputs[0].surface == surface then [] else [outputs[0]]) + Unmapped(outputs[1..], surface)
  }

  function Reset(s: State, width: U32, height: U32): State {
    s.(desktop := (width, height), outputs := [], base := map[])
  }

  function Create(s: State, id: U16, w: U16, h: U16): State {
    s.(base := R.Without(s.base, id), screen := SetCanvas(s.screen, id, Blank(w, h)))
  }

  function Delete(s: State, id: U16): State {
    s.(screen := s.screen.(surfaces := s.screen.surfaces - {id}), base := R.Without(s.base, id), outputs := Unmapped(s.outputs, id))
  }

  function MapOutput(s: State, id: U16, x: U32, y: U32): State {
    s.(outputs := Unmapped(s.outputs, id) + [Mapping(id, x, y)])
  }

  function EndedFrame(s: State): State {
    s.(frames := (s.frames + 1) % 0x1_0000_0000, stats := s.stats.(frames := s.stats.frames + 1))
  }

  // ---------- One PDU ----------

  /** The counter that says a PDU of this kind has arrived. */
  function CountedStats(st: Stats, pdu: Pdu): Stats {
    match pdu
    case WireToSurface1(_, _, _, _, _) => st.(wire1 := st.wire1 + 1)
    case WireToSurface2(_, _, _) => st.(wire2 := st.wire2 + 1)
    case SolidFill(_, _, _) => st.(fills := st.fills + 1)
    case SurfaceToSurface(_, _, _, _) => st.(copies := st.copies + 1)
    case SurfaceToCache(_, _, _) => st.(stores := st.stores + 1)
    case CacheToSurface(_, _, _) => st.(recalls := st.recalls + 1)
    case EvictCacheEntry(_) => st.(evictions := st.evictions + 1)
    case DeleteEncodingContext(_, _) => st.(contextDeletes := st.contextDeletes + 1)
    case Other(_) => st.(unhandled := st.unhandled + 1)
    case _ => st
  }

  function Counted(s: State, pdu: Pdu): State {
    s.(stats := CountedStats(s.stats, pdu))
  }

  /** Counts `n` dropped updates. */
  function DroppedMany(st: Stats, n: nat): Stats {
    st.(droppedUpdates := st.droppedUpdates + n)
  }

  function Effected(s: State, e: Effect): State {
    s.(screen := e.screen, clear := e.clear, base := e.base, sawContent := s.sawContent || e.seen,
       stats := DroppedMany(NotedAll(s.stats, e.checks), e.losses))
  }

  ghost function Apply(s: State, pdu: Pdu): State {
    var s' := Counted(s, pdu);
    match pdu
    case CapsConfirm => s'
    case ResetGraphics(width, height) => Reset(s', width, height)
    case CreateSurface(id, w, h, _) => Create(s', id, w, h)
    case DeleteSurface(id) => Delete(s', id)
    case MapSurfaceToOutput(id, x, y) => MapOutput(s', id, x, y)
    case StartFrame(frame) => s'.(currentFrame := frame)
    case EndFrame(_) => EndedFrame(s')
    case _ => Effected(s', EffectOf(s', pdu))
  }

  /** Only the end of a frame asks for something. */
  ghost function ActionOf(s: State, pdu: Pdu): seq<Action> {
    if pdu.EndFrame? then [Acknowledge(pdu.frame, Apply(s, pdu).frames)] else []
  }
}
