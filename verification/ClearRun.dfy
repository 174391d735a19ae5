/**
 Whole connections of ClearCodec messages (section 2.2.4.1 of MS-RDPEGFX): the sender mirrors the
 column caches and the glyph cache, mixes composed tiles with recalled glyphs and restarts, and
 its sequence numbers wrap.
 */
module ClearRuns {
  import opened Machine
  import opened Grid
  import opened Bytes
  import opened VBars
  import opened VBarLockstep
  import opened ClearCodec

  /** What a sender remembers: the columns and the glyphs it has sent, and the next message's number. */
  datatype Peer = Peer(columns: Sender, glyphs: map<nat, Tile>, next: Byte)

  /** A tile that is composed from layers, or recalled from the glyph cache. */
  datatype Sent = Composed(draw: Draw, w: nat, h: nat) | Glyph(index: nat, restart: bool, w: nat, h: nat)

  ghost predicate CanSend(m: Sent, p: Peer) {
    match m
    case Composed(d, w, h) => Sendable(d, p.columns, w, h)
    case Glyph(i, _, w, h) => i < GLYPH_CACHE_SIZE && i in p.glyphs && |p.glyphs[i]| >= At(0, w, h, 0)
  }

  function HitFlags(restart: bool): Byte {
    GLYPH_INDEX + GLYPH_HIT + (if restart then CACHE_RESET else 0)
  }

  function MessageBytes(m: Sent, p: Peer): seq<Byte>
    requires CanSend(m, p)
  {
    match m
    case Composed(d, w, h) => EncodeDraw(d, p.columns, p.next, w, h)
    case Glyph(i, restart, _, _) => [HitFlags(restart)] + ([p.next] + Le16Bytes(i))
  }

  /** The pixels a message stands for; a recalled glyph may have more of them than are drawn. */
  function Meant(m: Sent, p: Peer): (t: Tile)
    requires CanSend(m, p)
    ensures |t| >= At(0, m.w, m.h, 0)
  {
    match m
    case Composed(d, w, h) => Intended(d, p.columns, w, h)
    case Glyph(i, _, _, _) => p.glyphs[i]
  }

  function NextNumber(n: Byte): Byte {
    (n + 1) % 0x100
  }

  /** What the sender remembers behind the message. */
  function Following(m: Sent, p: Peer): Peer
    requires CanSend(m, p)
  {
    match m
    case Composed(d, w, h) =>
      Peer(AfterBands(d.bands, Started(d, p.columns)),
           if d.glyph.Some? then p.glyphs[d.glyph.value := Intended(d, p.columns, w, h)] else p.glyphs, NextNumber(p.next))
    case Glyph(_, restart, _, _) =>
      p.(columns := if restart then Sender(p.columns.bars + [Restarted], p.columns.shorts + [Restarted]) else p.columns,
         next := NextNumber(p.next))
  }

  // ---------- One message ----------

  ghost predicate SameGlyphs(glyphs: seq<Option<Tile>>, sent: map<nat, Tile>) {
    |glyphs| == GLYPH_CACHE_SIZE &&
    forall i :: 0 <= i < GLYPH_CACHE_SIZE ==> glyphs[i] == if i in sent then Some(sent[i]) else None
  }

  /** The receiver's caches hold what the sender believes, and it waits for the sender's next number. */
  ghost predicate InStep(s: State, p: Peer) {
    s.Valid() && Lockstep(s.caches, p.columns) && SameGlyphs(s.glyphs, p.glyphs) && InSequence(s, p.next)
  }

  lemma NextInSequence(s: State, n: Byte)
    requires s.seqNumber == Some(n)
    ensures InSequence(s, NextNumber(n))
  {
  }

  lemma ComposedInStep(d: Draw, w: nat, h: nat, p: Peer, s: State)
    requires CanSend(Composed(d, w, h), p) && InStep(s, p)
    ensures var m := Composed(d, w, h);
            var r := Decode(MessageBytes(m, p), s, w, h);
            r.pixels == Some(Meant(m, p)) && InStep(r.state, Following(m, p))
  {
    hide Sendable, EncodeDraw, Intended, Decode, AfterBands, Started, Lockstep, InSequence, NextNumber, At;
    var c' := DrawRoundTrip(d, p.columns, s, p.next, w, h);
    NextInSequence(Decode(EncodeDraw(d, p.columns, p.next, w, h), s, w, h).state, p.next);
  }

  lemma HitFlagsBack(restart: bool)
    ensures Has(HitFlags(restart), GLYPH_INDEX) && Has(HitFlags(restart), GLYPH_HIT)
    ensures Has(HitFlags(restart), CACHE_RESET) <==> restart
  {
  }

  lemma GlyphInStep(i: nat, restart: bool, w: nat, h: nat, p: Peer, s: State)
    requires CanSend(Glyph(i, restart, w, h), p) && InStep(s, p)
    ensures var m := Glyph(i, restart, w, h);
            var r := Decode(MessageBytes(m, p), s, w, h);
            r.pixels == Some(Meant(m, p)) && InStep(r.state, Following(m, p))
  {
    hide ReadU8, ReadU16, Le16Bytes, Has, HitFlags, Compose, Agrees, InSequence, NextNumber, At;
    var data, flags := MessageBytes(Glyph(i, restart, w, h), p), HitFlags(restart);
    HitFlagsBack(restart);
    assert data[0..] == data && data == [flags] + ([p.next] + (Le16Bytes(i) + []));
    U8Back(data, 0, flags, [p.next] + (Le16Bytes(i) + []));
    U8Back(data, 1, p.next, Le16Bytes(i) + []);
    U16Back(data, 2, i, []);
    if restart {
      RestartAgrees(s.caches.vbars, s.caches.cursor, p.columns.bars, VBAR_SIZE);
      RestartAgrees(s.caches.shorts, s.caches.shortCursor, p.columns.shorts, SHORT_VBAR_SIZE);
    }
    NextInSequence(Accepted(s, flags, p.next), p.next);
  }

  /** A message in step draws what it stands for, and leaves both sides in step. */
  lemma MessageInStep(m: Sent, p: Peer, s: State)
    requires CanSend(m, p) && InStep(s, p)
    ensures var r := Decode(MessageBytes(m, p), s, m.w, m.h);
            r.pixels == Some(Meant(m, p)) && InStep(r.state, Following(m, p))
  {
    hide *;
    match m
    case Composed(d, w, h) => ComposedInStep(d, w, h, p, s);
    case Glyph(i, restart, w, h) => GlyphInStep(i, restart, w, h, p, s);
  }

  // ---------- Whole connections ----------

  ghost predicate CanSendAll(ms: seq<Sent>, p: Peer)
    decreases |ms|
  {
    ms == [] || (CanSend(ms[0], p) && CanSendAll(ms[1..], Following(ms[0], p)))
  }

  /** A message with the size of the picture it is to fill. */
  datatype Packet = Packet(data: seq<Byte>, w: nat, h: nat)

  function Packets(ms: seq<Sent>, p: Peer): (r: seq<Packet>)
    requires CanSendAll(ms, p)
    ensures |r| == |ms|
    decreases |ms|
  {
    if ms == [] then [] else [Packet(MessageBytes(ms[0], p), ms[0].w, ms[0].h)] + Packets(ms[1..], Following(ms[0], p))
  }

  /** The pictures a run of messages stands for. */
  function AllMeant(ms: seq<Sent>, p: Peer): (r: seq<Option<Tile>>)
    requires CanSendAll(ms, p)
    ensures |r| == |ms|
    decreases |ms|
  {
    if ms == [] then [] else [Some(Meant(ms[0], p))] + AllMeant(ms[1..], Following(ms[0], p))
  }

  function FollowingAll(ms: seq<Sent>, p: Peer): Peer
    requires CanSendAll(ms, p)
    decreases |ms|
  {
    if ms == [] then p else FollowingAll(ms[1..], Following(ms[0], p))
  }

  /** What a receiver draws, and the state it is left in. */
  function DecodeAll(packets: seq<Packet>, s: State): (r: (State, seq<Option<Tile>>))
    requires s.Valid()
    ensures r.0.Valid() && |r.1| == |packets|
    decreases |packets|
  {
    if packets == [] then (s, [])
    else
      var first := Decode(packets[0].data, s, packets[0].w, packets[0].h);
      var rest := DecodeAll(packets[1..], first.state);
      (rest.0, [first.pixels] + rest.1)
  }

  /** Every message of a run draws what it stands for, however often the rings and the numbers wrapped. */
  lemma {:induction false} RunRoundTrip(ms: seq<Sent>, p: Peer, s: State)
    requires CanSendAll(ms, p) && InStep(s, p)
    ensures DecodeAll(Packets(ms, p), s).1 == AllMeant(ms, p)
    ensures InStep(DecodeAll(Packets(ms, p), s).0, FollowingAll(ms, p))
    decreases |ms|
  {
    hide CanSend, MessageBytes, Meant, Following, Decode, Lockstep, SameGlyphs, InSequence;
    if ms != [] {
      MessageInStep(ms[0], p, s);
      var next := Decode(MessageBytes(ms[0], p), s, ms[0].w, ms[0].h).state;
      RunRoundTrip(ms[1..], Following(ms[0], p), next);
      var all := Packets(ms, p);
      assert all[1..] == Packets(ms[1..], Following(ms[0], p));
    }
  }

  /** A sender that has sent nothing, whichever number it begins with. */
  function Newcomer(first: Byte): Peer {
    Peer(Sender([], []), map[], first)
  }

  lemma StartsInStep(first: Byte)
    ensures InStep(Fresh(), Newcomer(first))
  {
    hide Lockstep;
    FreshInStep();
  }

  /** From the start of a connection on, the receiver draws exactly what its sender means. */
  lemma ConnectionRoundTrip(ms: seq<Sent>, first: Byte)
    requires CanSendAll(ms, Newcomer(first))
    ensures DecodeAll(Packets(ms, Newcomer(first)), Fresh()).1 == AllMeant(ms, Newcomer(first))
  {
    hide *;
    StartsInStep(first);
    RunRoundTrip(ms, Newcomer(first), Fresh());
  }

  // ---------- Lost messages ----------

  lemma NumberOf(m: Sent, p: Peer)
    requires CanSend(m, p)
    ensures |MessageBytes(m, p)| >= 2 && MessageBytes(m, p)[1] == p.next
  {
    hide Flags, HitFlags, Le16Bytes, SizeBytes, LayerBytes, Sendable;
  }

  lemma NumbersGoOn(n: Byte, i: nat)
    requires i > 0
    ensures (NextNumber(n) + (i - 1)) % 0x100 == (n + i) % 0x100
  {
  }

  lemma {:induction false} Numbers(ms: seq<Sent>, p: Peer, i: nat)
    requires CanSendAll(ms, p) && i < |ms|
    ensures var data := Packets(ms, p)[i].data;
            |data| >= 2 && data[1] == (p.next + i) % 0x100
    decreases i
  {
    hide CanSend, MessageBytes, NextNumber;
    if i == 0 {
      NumberOf(ms[0], p);
    } else {
      var next := Following(ms[0], p);
      assert next.next == NextNumber(p.next);
      hide Following;
      NumbersGoOn(p.next, i);
      Numbers(ms[1..], next, i - 1);
    }
  }

  function NoPictures(n: nat): seq<Option<Tile>> {
    seq(n, i => None)
  }

  lemma {:induction false} AllRefused(packets: seq<Packet>, s: State)
    requires s.Valid() && forall i :: 0 <= i < |packets| ==> |packets[i].data| >= 2 && !InSequence(s, packets[i].data[1])
    ensures DecodeAll(packets, s) == (s, NoPictures(|packets|))
    decreases |packets|
  {
    hide Decode, InSequence;
    if packets != [] {
      GapChangesNothing(packets[0].data, s, packets[0].w, packets[0].h);
      AllRefused(packets[1..], s);
      assert NoPictures(|packets|) == [None] + NoPictures(|packets| - 1);
    }
  }

  /** A sender's number is the awaited one again only after every 256th message. */
  lemma RoundAgain(p: Peer, s: State, i: nat)
    requires InStep(s, p) && s.seqNumber.Some?
    ensures InSequence(s, (p.next + i) % 0x100) <==> i % 0x100 == 0
  {
    hide Lockstep, SameGlyphs;
  }

  /**
   When the first messages of a run do not arrive, none of the next ones is drawn and the state stays, so that nothing
   is composed from caches that differ. Up to 255 messages on, the loss cannot be missed.
   */
  lemma LossIsNoticed(ms: seq<Sent>, p: Peer, s: State, lost: nat)
    requires CanSendAll(ms, p) && InStep(s, p) && s.seqNumber.Some? && 0 < lost <= |ms| <= 0x100
    ensures DecodeAll(Packets(ms, p)[lost..], s) == (s, NoPictures(|ms| - lost))
  {
    hide CanSendAll, Packets, DecodeAll, Lockstep, SameGlyphs, InSequence;
    var late := Packets(ms, p)[lost..];
    forall i | 0 <= i < |late|
      ensures |late[i].data| >= 2 && !InSequence(s, late[i].data[1])
    {
      Numbers(ms, p, lost + i);
      RoundAgain(p, s, lost + i);
      assert late[i] == Packets(ms, p)[lost + i];
    }
    AllRefused(late, s);
  }
}
