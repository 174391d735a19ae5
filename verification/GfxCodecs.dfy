/** The client's own codecs as the surface state machine draws with them. */
module GfxCodecs {
  import opened Machine
  import opened Canvas
  import opened GfxMachine
  import opened GfxRuns
  import TB = TileBlocks
  import R = Regions
  import RP = RegionPaints
  import C = ClearCodec

  ghost function ClearPicture(data: seq<Byte>, s: C.State, w: nat, h: nat): (C.State, Option<Image>) {
    if !s.Valid() then (s, None)
    else
      var d := C.Decode(data, s, w, h);
      (d.state, match d.pixels case None => None case Some(tile) => Some(Canvas(w, h, OpaqueRows(tile, w, h))))
  }

  ghost function ProgressiveUpdate(base: TB.Baseline, id: U16, data: seq<Byte>): RP.Update {
    if TB.AllValid(base) then RP.StreamUpdate(base, id, data, 0) else RP.Update(base, [], [], false)
  }

  ghost function ClientCodecs(): Codecs {
    Codecs((data: seq<Byte>, s: C.State, w: nat, h: nat) => ClearPicture(data, s, w, h),
           (base: TB.Baseline, id: U16, data: seq<Byte>) => ProgressiveUpdate(base, id, data))
  }

  lemma UpdateIsLocal(base: TB.Baseline, id: U16, data: seq<Byte>)
    requires TB.AllValid(base)
    ensures LocalAt(ClientCodecs(), base, id, data)
  {
    hide RP.StreamUpdate, R.DecodeStream, ClearPicture, TB.AllValid, R.Only;
    var c: Image := Blank(0, 0);
    var own := R.Only(base, id);
    RP.StreamIsItsUpdate(base, id, data, 0, c, (0, 0));
    RP.StreamIsItsUpdate(own, id, data, 0, c, (0, 0));
    R.StreamIsLocal(base, id, data, 0, c, (0, 0));
  }

  lemma ClientIsLawful()
    ensures Lawful(ClientCodecs())
  {
    hide LocalAt;
    forall base: TB.Baseline, id: U16, data: seq<Byte> | TB.AllValid(base)
      ensures LocalAt(ClientCodecs(), base, id, data)
    {
      UpdateIsLocal(base, id, data);
    }
  }
}
