/** From a sender's coefficients and colours, through compressed messages, to the client's pixels. */
module EndToEnd {
  import opened Machine
  import opened Zgfx
  import opened ZgfxMessages
  import opened GfxMachine
  import opened Connection
  import Gfx
  import GC = GfxClear
  import GP = GfxProgressive
  import CR = ClearRuns
  import RS = RegionSender

  /** Whatever messages carry them, the tiles a sender sends and refines appear on the surface as the sender means them. */
  lemma TilesArrive(s: State, h: History, ms: seq<Message>, batches: seq<seq<Gfx.Pdu>>,
                    ts: seq<GP.Step>, id: U16, m: RS.Mirror, extrapolate: bool)
    requires Carries(ms, h, batches) && RunLegal(ms, h)
    requires GP.InStep(s, id, m, extrapolate) && GP.CanStepAll(ts, id, m, extrapolate)
    requires Joined(batches) == GP.PdusOf(ts, id, m, extrapolate)
    ensures GP.AllShown(ts, s, id, m, extrapolate)
    ensures var r := Serve(s, h, EncodeRun(ms, h));
            r.ok && GP.InStep(r.state, id, GP.BehindAll(ts, id, m, extrapolate), extrapolate)
  {
    hide *;
    ServesAsSent(s, h, ms, batches);
    GP.RunShows(ts, s, id, m, extrapolate);
  }

  /** The same for the pictures of a ClearCodec sender. */
  lemma PicturesArrive(s: State, h: History, ms: seq<Message>, batches: seq<seq<Gfx.Pdu>>, ts: seq<GC.Step>, p: CR.Peer)
    requires Carries(ms, h, batches) && RunLegal(ms, h)
    requires GC.InStep(s, p) && GC.CanStepAll(ts, p, s)
    requires Joined(batches) == GC.PdusOf(ts, p, s)
    ensures GC.AllShown(ts, p, s)
    ensures var r := Serve(s, h, EncodeRun(ms, h));
            r.ok && GC.InStep(r.state, GC.BehindAll(ts, p, s))
  {
    hide *;
    ServesAsSent(s, h, ms, batches);
    GC.RunShows(ts, p, s);
  }
}
