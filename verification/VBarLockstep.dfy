/**
 The sender of ClearCodec bands. It keeps a log of the columns it has sent instead of ring
 buffers; the receiver's rings are shown to agree with that log after every message.
 */
module VBarLockstep {
  import opened Machine
  import opened Grid
  import opened Pixels
  import opened Seqs
  import opened Bytes
  import opened VBars

  // ---------- A ring, described by everything that ever happened to it ----------

  datatype Event = Stored(bar: Bar) | Restarted

  /** Updates since the last restart. */
  function Updates(log: seq<Event>): nat {
    if log == [] || log[|log| - 1].Restarted? then 0 else Updates(log[..|log| - 1]) + 1
  }

  /** The latest column stored in slot `i`; a restart moves the cursor but forgets nothing. */
  function SlotOf(log: seq<Event>, size: nat, i: nat): Option<Bar>
    requires size > 0
  {
    if log == [] then None
    else
      var before := log[..|log| - 1];
      match log[|log| - 1]
      case Restarted => SlotOf(before, size, i)
      case Stored(bar) => if Updates(before) % size == i then Some(bar) else SlotOf(before, size, i)
  }

  ghost predicate Agrees(ring: seq<Option<Bar>>, cursor: nat, log: seq<Event>, size: nat)
    requires size > 0
  {
    && |ring| == size && cursor == Updates(log) % size
    && forall i :: 0 <= i < size ==> ring[i] == SlotOf(log, size, i)
  }

  lemma StoreAgrees(ring: seq<Option<Bar>>, cursor: nat, log: seq<Event>, size: nat, bar: Bar)
    requires size > 0 && Agrees(ring, cursor, log, size)
    ensures cursor < size && Agrees(ring[cursor := Some(bar)], (cursor + 1) % size, log + [Stored(bar)], size)
  {
    var log' := log + [Stored(bar)];
    assert log'[..|log'| - 1] == log;
    NextSlot(Updates(log), size);
  }

  lemma NextSlot(n: nat, size: nat)
    requires size > 0
    ensures n % size < size && (n % size + 1) % size == (n + 1) % size
  {
    var q, r := n / size, n % size;
    assert n == size * q + r;
    if r + 1 == size {
      SmallRemainder(0, q + 1, size, n + 1);
      SmallRemainder(0, 1, size, r + 1);
    } else {
      SmallRemainder(r + 1, q, size, n + 1);
      SmallRemainder(r + 1, 0, size, r + 1);
    }
  }

  lemma RestartAgrees(ring: seq<Option<Bar>>, cursor: nat, log: seq<Event>, size: nat)
    requires size > 0 && Agrees(ring, cursor, log, size)
    ensures Agrees(ring, 0, log + [Restarted], size)
  {
    var log' := log + [Restarted];
    assert log'[..|log'| - 1] == log;
  }

  // ---------- The sender ----------

  datatype Sender = Sender(bars: seq<Event>, shorts: seq<Event>)

  ghost predicate Lockstep(c: Caches, s: Sender) {
    Agrees(c.vbars, c.cursor, s.bars, VBAR_SIZE) && Agrees(c.shorts, c.shortCursor, s.shorts, SHORT_VBAR_SIZE)
  }

  /** How one column is put on the wire. */
  datatype Command = Hit(index: nat) | ShortHit(index: nat, yOn: Byte) | Miss(start: nat, short: Bar)

  /** The column the sender means, if the command may be sent. */
  function Wanted(cmd: Command, height: nat, bkg: Bgr, s: Sender): Option<Bar> {
    match cmd
    case Hit(i) =>
      if i < VBAR_SIZE && SlotOf(s.bars, VBAR_SIZE, i).Some? then
        Some(Resized(SlotOf(s.bars, VBAR_SIZE, i).value, height))
      else None
    case ShortHit(i, yOn) =>
      if i < SHORT_VBAR_SIZE && SlotOf(s.shorts, SHORT_VBAR_SIZE, i).Some? then
        Some(Overlaid(bkg, height, yOn, SlotOf(s.shorts, SHORT_VBAR_SIZE, i).value))
      else None
    case Miss(yOn, short) =>
      if |short| <= MAX_HEIGHT && yOn + |short| < 0x40 then Some(Overlaid(bkg, height, yOn, short)) else None
  }

  function After(cmd: Command, bar: Bar, s: Sender): Sender {
    match cmd
    case Hit(_) => s
    case ShortHit(_, _) => s.(bars := s.bars + [Stored(bar)])
    case Miss(_, short) => Sender(s.bars + [Stored(bar)], s.shorts + [Stored(short)])
  }

  function PixelBytes(bar: Bar): seq<Byte> {
    if bar == [] then [] else [bar[0].b, bar[0].g, bar[0].r] + PixelBytes(bar[1..])
  }

  function EncodeColumn(cmd: Command, height: nat, bkg: Bgr, s: Sender): seq<Byte>
    requires Wanted(cmd, height, bkg, s).Some?
  {
    match cmd
    case Hit(i) => Le16Bytes(0x8000 + i)
    case ShortHit(i, yOn) => Le16Bytes(0x4000 + i) + [yOn]
    case Miss(yOn, short) => Le16Bytes(yOn + 0x100 * (yOn + |short|)) + PixelBytes(short)
  }

  lemma {:induction false} PixelsBack(data: seq<Byte>, p: nat, bar: Bar, rest: seq<Byte>)
    requires p <= |data| && data[p..] == PixelBytes(bar) + rest
    ensures ReadPixels(data, p, |bar|) == Some((bar, p + |PixelBytes(bar)|))
    ensures p + |PixelBytes(bar)| <= |data| && data[p + |PixelBytes(bar)|..] == rest
    decreases |bar|
  {
    if bar == [] {
      assert data[p..] == rest;
    } else {
      var first := [bar[0].b, bar[0].g, bar[0].r];
      Advance(data, p, first, PixelBytes(bar[1..]), rest);
      var f := data[p..p + 3];
      assert f[0] == data[p] && f[1] == data[p + 1] && f[2] == data[p + 2];
      PixelsBack(data, p + 3, bar[1..], rest);
      assert [bar[0]] + bar[1..] == bar;
    }
  }

  // ---------- One column ----------

  lemma HitInStep(data: seq<Byte>, p: nat, i: nat, height: nat, bkg: Bgr, s: Sender, c: Caches, rest: seq<Byte>)
    requires c.Valid() && Lockstep(c, s) && Wanted(Hit(i), height, bkg, s).Some?
    requires p <= |data| && data[p..] == Le16Bytes(0x8000 + i) + rest
    ensures ReadColumn(data, p, height, bkg, c) == Some(Column(Wanted(Hit(i), height, bkg, s).value, p + 2, c))
    ensures p + 2 <= |data| && data[p + 2..] == rest
  {
    hide SlotOf, Updates, Resized, Le16Bytes, ReadU16;
    U16Back(data, p, 0x8000 + i, rest);
  }

  lemma ShortHitInStep(data: seq<Byte>, p: nat, i: nat, yOn: Byte, height: nat, bkg: Bgr, s: Sender, c: Caches, rest: seq<Byte>)
    requires c.Valid() && Lockstep(c, s) && Wanted(ShortHit(i, yOn), height, bkg, s).Some?
    requires p <= |data| && data[p..] == Le16Bytes(0x4000 + i) + ([yOn] + rest)
    ensures var bar := Wanted(ShortHit(i, yOn), height, bkg, s).value;
            ReadColumn(data, p, height, bkg, c) == Some(Column(bar, p + 3, Push(c, bar)))
    ensures p + 3 <= |data| && data[p + 3..] == rest
  {
    hide SlotOf, Updates, Overlaid, Le16Bytes, ReadU16, ReadU8, Push;
    U16Back(data, p, 0x4000 + i, [yOn] + rest);
    U8Back(data, p + 2, yOn, rest);
  }

  lemma MissInStep(data: seq<Byte>, p: nat, yOn: nat, short: Bar, height: nat, bkg: Bgr, s: Sender, c: Caches, rest: seq<Byte>)
    requires c.Valid() && Wanted(Miss(yOn, short), height, bkg, s).Some?
    requires p <= |data| && data[p..] == Le16Bytes(yOn + 0x100 * (yOn + |short|)) + (PixelBytes(short) + rest)
    ensures var bar := Wanted(Miss(yOn, short), height, bkg, s).value;
            var end := p + 2 + |PixelBytes(short)|;
            && ReadColumn(data, p, height, bkg, c) == Some(Column(bar, end, Push(PushShort(c, short), bar)))
            && end <= |data| && data[end..] == rest
  {
    hide Overlaid, Le16Bytes, ReadU16, ReadPixels, Push, PushShort, PixelBytes;
    U16Back(data, p, yOn + 0x100 * (yOn + |short|), PixelBytes(short) + rest);
    PixelsBack(data, p + 2, short, rest);
  }

  /** The receiver paints the column the sender means, and both caches move on in step. */
  lemma ColumnInStep(data: seq<Byte>, p: nat, cmd: Command, height: nat, bkg: Bgr, s: Sender, c: Caches, rest: seq<Byte>)
    returns (c': Caches)
    requires c.Valid() && Lockstep(c, s) && Wanted(cmd, height, bkg, s).Some?
    requires p <= |data| && data[p..] == EncodeColumn(cmd, height, bkg, s) + rest
    ensures var bar, end := Wanted(cmd, height, bkg, s).value, p + |EncodeColumn(cmd, height, bkg, s)|;
            && ReadColumn(data, p, height, bkg, c) == Some(Column(bar, end, c'))
            && end <= |data| && data[end..] == rest
            && Lockstep(c', After(cmd, bar, s)) && c'.Valid()
  {
    hide SlotOf, Updates, Overlaid, Resized, Le16Bytes, ReadColumn, PixelBytes, Agrees;
    var bar := Wanted(cmd, height, bkg, s).value;
    match cmd
    case Hit(i) =>
      HitInStep(data, p, i, height, bkg, s, c, rest);
      c' := c;
    case ShortHit(i, yOn) =>
      assert Le16Bytes(0x4000 + i) + [yOn] + rest == Le16Bytes(0x4000 + i) + ([yOn] + rest);
      ShortHitInStep(data, p, i, yOn, height, bkg, s, c, rest);
      StoreAgrees(c.vbars, c.cursor, s.bars, VBAR_SIZE, bar);
      c' := Push(c, bar);
    case Miss(yOn, short) =>
      var word := Le16Bytes(yOn + 0x100 * (yOn + |short|));
      assert word + PixelBytes(short) + rest == word + (PixelBytes(short) + rest);
      MissInStep(data, p, yOn, short, height, bkg, s, c, rest);
      StoreAgrees(c.shorts, c.shortCursor, s.shorts, SHORT_VBAR_SIZE, short);
      StoreAgrees(c.vbars, c.cursor, s.bars, VBAR_SIZE, bar);
      c' := Push(PushShort(c, short), bar);
  }

  // ---------- Whole bands ----------

  datatype Band = Band(header: Header, columns: seq<Command>)

  predicate ColumnsSendable(cmds: seq<Command>, height: nat, bkg: Bgr, s: Sender)
    decreases |cmds|
  {
    cmds == [] ||
    (Wanted(cmds[0], height, bkg, s).Some? &&
     ColumnsSendable(cmds[1..], height, bkg, After(cmds[0], Wanted(cmds[0], height, bkg, s).value, s)))
  }

  function EncodeColumns(cmds: seq<Command>, height: nat, bkg: Bgr, s: Sender): seq<Byte>
    requires ColumnsSendable(cmds, height, bkg, s)
    decreases |cmds|
  {
    if cmds == [] then []
    else
      EncodeColumn(cmds[0], height, bkg, s)
      + EncodeColumns(cmds[1..], height, bkg, After(cmds[0], Wanted(cmds[0], height, bkg, s).value, s))
  }

  /** The sender's logs behind the columns. */
  function AfterColumns(cmds: seq<Command>, height: nat, bkg: Bgr, s: Sender): Sender
    requires ColumnsSendable(cmds, height, bkg, s)
    decreases |cmds|
  {
    if cmds == [] then s
    else AfterColumns(cmds[1..], height, bkg, After(cmds[0], Wanted(cmds[0], height, bkg, s).value, s))
  }

  /** The tile with every column the sender means painted, from column `x` on. */
  function PaintWanted(cmds: seq<Command>, x: nat, y: nat, height: nat, bkg: Bgr, s: Sender, tile: Tile, w: nat, h: nat): (r: Tile)
    requires ColumnsSendable(cmds, height, bkg, s) && |tile| == At(0, w, h, 0)
    ensures |r| == |tile|
    decreases |cmds|
  {
    if cmds == [] then tile
    else
      var bar := Wanted(cmds[0], height, bkg, s).value;
      PaintWanted(cmds[1..], x + 1, y, height, bkg, After(cmds[0], bar, s), PaintColumn(tile, w, h, x, y, bar), w, h)
  }

  lemma {:induction false} ColumnsInStep(data: seq<Byte>, p: nat, x: nat, header: Header, cmds: seq<Command>, s: Sender, c: Caches,
                                         tile: Tile, w: nat, h: nat, rest: seq<Byte>)
    returns (r: Progress)
    requires header.Valid() && c.Valid() && Lockstep(c, s) && |tile| == At(0, w, h, 0)
    requires ColumnsSendable(cmds, header.Height(), header.bkg, s) && x + |cmds| == header.xEnd as int + 1
    requires p <= |data| && data[p..] == EncodeColumns(cmds, header.Height(), header.bkg, s) + rest
    ensures r == DecodeColumns(data, p, x, header, c, tile, w, h)
    ensures r.tile == PaintWanted(cmds, x, header.yStart, header.Height(), header.bkg, s, tile, w, h)
    ensures Lockstep(r.caches, AfterColumns(cmds, header.Height(), header.bkg, s))
    ensures r.next.Some? && p <= r.next.value <= |data| && data[r.next.value..] == rest
    decreases |cmds|
  {
    hide Wanted, After, EncodeColumn, ReadColumn, PaintColumn, Lockstep, At;
    if cmds == [] {
      r := Progress(tile, c, Some(p));
      assert data[p..] == rest;
    } else {
      var height, bkg := header.Height(), header.bkg;
      var bar := Wanted(cmds[0], height, bkg, s).value;
      var code, more := EncodeColumn(cmds[0], height, bkg, s), EncodeColumns(cmds[1..], height, bkg, After(cmds[0], bar, s));
      assert code + more + rest == code + (more + rest);
      var c' := ColumnInStep(data, p, cmds[0], height, bkg, s, c, more + rest);
      r := ColumnsInStep(data, p + |code|, x + 1, header, cmds[1..], After(cmds[0], bar, s), c',
                         PaintColumn(tile, w, h, x, header.yStart, bar), w, h, rest);
    }
  }

  /** The `k`th column the sender means. */
  function WantedBar(cmds: seq<Command>, k: nat, height: nat, bkg: Bgr, s: Sender): (bar: Bar)
    requires ColumnsSendable(cmds, height, bkg, s) && k < |cmds|
    ensures |bar| == height
  {
    var first := Wanted(cmds[0], height, bkg, s).value;
    if k == 0 then first else WantedBar(cmds[1..], k - 1, height, bkg, After(cmds[0], first, s))
  }

  /** After a band, each of its cells inside the tile has the colour the sender means; no other cell has changed. */
  lemma {:induction false} WantedShows(cmds: seq<Command>, x: nat, y: nat, height: nat, bkg: Bgr, s: Sender, tile: Tile, w: nat, h: nat,
                                       cx: nat, cy: nat)
    requires ColumnsSendable(cmds, height, bkg, s) && |tile| == At(0, w, h, 0) && cx < w && cy < h
    ensures At(0, w, cy, cx) < |tile|
    ensures PaintWanted(cmds, x, y, height, bkg, s, tile, w, h)[At(0, w, cy, cx)]
         == if x <= cx < x + |cmds| && y <= cy < y + height then WantedBar(cmds, cx - x, height, bkg, s)[cy - y]
            else tile[At(0, w, cy, cx)]
    decreases |cmds|
  {
    hide At, Wanted, After, PaintColumn;
    if cmds == [] {
      AtInside(0, w, h, cy, cx);
    } else {
      var bar := Wanted(cmds[0], height, bkg, s).value;
      WantedIsTall(cmds[0], height, bkg, s);
      ColumnShows(tile, w, h, x, y, bar, cx, cy);
      WantedShows(cmds[1..], x + 1, y, height, bkg, After(cmds[0], bar, s), PaintColumn(tile, w, h, x, y, bar), w, h, cx, cy);
    }
  }

  lemma WantedIsTall(cmd: Command, height: nat, bkg: Bgr, s: Sender)
    requires Wanted(cmd, height, bkg, s).Some?
    ensures |Wanted(cmd, height, bkg, s).value| == height
  {
  }

  predicate BandSendable(b: Band, s: Sender) {
    && b.header.Valid() && |b.columns| == b.header.xEnd - b.header.xStart + 1
    && ColumnsSendable(b.columns, b.header.Height(), b.header.bkg, s)
  }

  function EncodeHeader(h: Header): seq<Byte> {
    Le16Bytes(h.xStart) + (Le16Bytes(h.xEnd) + (Le16Bytes(h.yStart) + (Le16Bytes(h.yEnd) + [h.bkg.b, h.bkg.g, h.bkg.r])))
  }

  function AfterBand(b: Band, s: Sender): Sender
    requires BandSendable(b, s)
  {
    AfterColumns(b.columns, b.header.Height(), b.header.bkg, s)
  }

  function EncodeBand(b: Band, s: Sender): seq<Byte>
    requires BandSendable(b, s)
  {
    EncodeHeader(b.header) + EncodeColumns(b.columns, b.header.Height(), b.header.bkg, s)
  }

  function PaintBand(b: Band, s: Sender, tile: Tile, w: nat, h: nat): (r: Tile)
    requires BandSendable(b, s) && |tile| == At(0, w, h, 0)
    ensures |r| == |tile|
  {
    PaintWanted(b.columns, b.header.xStart, b.header.yStart, b.header.Height(), b.header.bkg, s, tile, w, h)
  }

  lemma HeaderBack(data: seq<Byte>, p: nat, h: Header, rest: seq<Byte>)
    requires h.Valid() && p <= |data| && data[p..] == EncodeHeader(h) + rest
    ensures |EncodeHeader(h)| == 11 && p + 11 <= |data| && data[p + 11..] == rest
    ensures ReadHeader(data, p) == Some((h, p + 11))
  {
    hide Le16Bytes, ReadU16;
    var colour := [h.bkg.b, h.bkg.g, h.bkg.r];
    var r4 := colour + rest;
    var r3 := Le16Bytes(h.yEnd) + r4;
    var r2 := Le16Bytes(h.yStart) + r3;
    var r1 := Le16Bytes(h.xEnd) + r2;
    assert data[p..] == Le16Bytes(h.xStart) + r1;
    U16Back(data, p, h.xStart, r1);
    U16Back(data, p + 2, h.xEnd, r2);
    U16Back(data, p + 4, h.yStart, r3);
    U16Back(data, p + 6, h.yEnd, r4);
    BytesBack(data, p + 8, colour, rest);
    var f := data[p + 8..p + 11];
    assert f[0] == data[p + 8] && f[1] == data[p + 9] && f[2] == data[p + 10];
  }

  predicate BandsSendable(bs: seq<Band>, s: Sender)
    decreases |bs|
  {
    bs == [] || (BandSendable(bs[0], s) && BandsSendable(bs[1..], AfterBand(bs[0], s)))
  }

  function EncodeBands(bs: seq<Band>, s: Sender): seq<Byte>
    requires BandsSendable(bs, s)
    decreases |bs|
  {
    if bs == [] then [] else EncodeBand(bs[0], s) + EncodeBands(bs[1..], AfterBand(bs[0], s))
  }

  function AfterBands(bs: seq<Band>, s: Sender): Sender
    requires BandsSendable(bs, s)
    decreases |bs|
  {
    if bs == [] then s else AfterBands(bs[1..], AfterBand(bs[0], s))
  }

  function PaintBands(bs: seq<Band>, s: Sender, tile: Tile, w: nat, h: nat): (r: Tile)
    requires BandsSendable(bs, s) && |tile| == At(0, w, h, 0)
    ensures |r| == |tile|
    decreases |bs|
  {
    if bs == [] then tile else PaintBands(bs[1..], AfterBand(bs[0], s), PaintBand(bs[0], s, tile, w, h), w, h)
  }

  lemma {:induction false} BandsInStep(data: seq<Byte>, p: nat, bs: seq<Band>, s: Sender, c: Caches, tile: Tile, w: nat, h: nat)
    returns (r: Progress)
    requires c.Valid() && Lockstep(c, s) && |tile| == At(0, w, h, 0) && BandsSendable(bs, s)
    requires p <= |data| && data[p..] == EncodeBands(bs, s)
    ensures r == DecodeBands(data, p, c, tile, w, h) && r.next == Some(|data|)
    ensures r.tile == PaintBands(bs, s, tile, w, h) && Lockstep(r.caches, AfterBands(bs, s))
    decreases |bs|
  {
    hide ColumnsSendable, EncodeColumns, AfterColumns, PaintWanted, DecodeColumns, ReadHeader, EncodeHeader, Lockstep, At;
    if bs == [] {
      r := Progress(tile, c, Some(p));
    } else {
      var b, header := bs[0], bs[0].header;
      var code, more := EncodeColumns(b.columns, header.Height(), header.bkg, s), EncodeBands(bs[1..], AfterBand(b, s));
      assert EncodeHeader(header) + code + more == EncodeHeader(header) + (code + more);
      HeaderBack(data, p, header, code + more);
      var columns := ColumnsInStep(data, p + 11, header.xStart, header, b.columns, s, c, tile, w, h, more);
      r := BandsInStep(data, columns.next.value, bs[1..], AfterBand(b, s), columns.caches, columns.tile, w, h);
    }
  }

  // ---------- Whole connections ----------

  /** A message's bands and whether it restarts the cursors first. */
  datatype Message = Message(restart: bool, bands: seq<Band>, w: nat, h: nat, tile: Tile)

  function Begin(m: Message, s: Sender): Sender {
    if m.restart then Sender(s.bars + [Restarted], s.shorts + [Restarted]) else s
  }

  predicate RunSendable(ms: seq<Message>, s: Sender)
    decreases |ms|
  {
    ms == [] ||
    (|ms[0].tile| == At(0, ms[0].w, ms[0].h, 0) && BandsSendable(ms[0].bands, Begin(ms[0], s)) &&
     RunSendable(ms[1..], AfterBands(ms[0].bands, Begin(ms[0], s))))
  }

  function Receive(m: Message, data: seq<Byte>, c: Caches): (r: Progress)
    requires c.Valid() && |m.tile| == At(0, m.w, m.h, 0)
    ensures r.caches.Valid()
  {
    DecodeBands(data, 0, if m.restart then Restart(c) else c, m.tile, m.w, m.h)
  }

  /** Every message of a run paints what its sender means, whichever columns were recalled and however often the rings wrapped. */
  ghost predicate AllPainted(ms: seq<Message>, s: Sender, c: Caches)
    requires RunSendable(ms, s) && c.Valid()
    decreases |ms|
  {
    ms == [] ||
    (var start := Begin(ms[0], s);
     var r := Receive(ms[0], EncodeBands(ms[0].bands, start), c);
     && r.next.Some? && r.tile == PaintBands(ms[0].bands, start, ms[0].tile, ms[0].w, ms[0].h)
     && Lockstep(r.caches, AfterBands(ms[0].bands, start))
     && AllPainted(ms[1..], AfterBands(ms[0].bands, start), r.caches))
  }

  lemma {:induction false} RunInStep(ms: seq<Message>, s: Sender, c: Caches)
    requires RunSendable(ms, s) && c.Valid() && Lockstep(c, s)
    ensures AllPainted(ms, s, c)
    decreases |ms|
  {
    hide BandsSendable, EncodeBands, AfterBands, PaintBands, DecodeBands, Agrees, At;
    if ms != [] {
      var m, start := ms[0], Begin(ms[0], s);
      if m.restart {
        RestartAgrees(c.vbars, c.cursor, s.bars, VBAR_SIZE);
        RestartAgrees(c.shorts, c.shortCursor, s.shorts, SHORT_VBAR_SIZE);
      }
      var data := EncodeBands(m.bands, start);
      assert data[0..] == data;
      var r := BandsInStep(data, 0, m.bands, start, if m.restart then Restart(c) else c, m.tile, m.w, m.h);
      RunInStep(ms[1..], AfterBands(m.bands, start), r.caches);
    }
  }

  /** A new connection starts in step. */
  lemma StartsInStep(c: Caches)
    requires c.Valid() && c.cursor == 0 && c.shortCursor == 0
    requires (forall i :: 0 <= i < VBAR_SIZE ==> c.vbars[i] == None) && (forall i :: 0 <= i < SHORT_VBAR_SIZE ==> c.shorts[i] == None)
    ensures Lockstep(c, Sender([], []))
  {
  }
}
