/** Drawing as a list of pictures to be painted at given places. */
module Paints {
  import opened Canvas

  /** A picture and where its corner goes. */
  datatype Paint = Paint(x: nat, y: nat, image: Image)

  function Area(p: Paint): Rect {
    Rect(p.x, p.y, p.image.width, p.image.height)
  }

  function PaintAt(p: Paint, origin: (nat, nat)): Paint {
    p.(x := origin.0 + p.x, y := origin.1 + p.y)
  }

  function AllAt(ps: seq<Paint>, origin: (nat, nat)): (r: seq<Paint>)
    ensures |r| == |ps|
  {
    seq(|ps|, i requires 0 <= i < |ps| => PaintAt(ps[i], origin))
  }

  function Painted(c: Image, p: Paint): (d: Image)
    ensures d.width == c.width && d.height == c.height
  {
    Blitted(c, p.x, p.y, p.image.width, p.image.rows)
  }

  /** The pictures painted one after another. */
  function PaintAll(c: Image, ps: seq<Paint>): (d: Image)
    ensures d.width == c.width && d.height == c.height
    decreases |ps|
  {
    if ps == [] then c else PaintAll(Painted(c, ps[0]), ps[1..])
  }

  lemma {:induction false} PaintAllJoins(c: Image, a: seq<Paint>, b: seq<Paint>)
    ensures PaintAll(c, a + b) == PaintAll(PaintAll(c, a), b)
    decreases |a|
  {
    hide Painted;
    if a == [] {
      assert a + b == b;
    } else {
      assert (a + b)[0] == a[0] && (a + b)[1..] == a[1..] + b;
      PaintAllJoins(Painted(c, a[0]), a[1..], b);
    }
  }

  lemma AllAtJoins(a: seq<Paint>, b: seq<Paint>, origin: (nat, nat))
    ensures AllAt(a + b, origin) == AllAt(a, origin) + AllAt(b, origin)
  {
    hide PaintAt;
  }

  lemma OutsideIsKept(c: Image, p: Paint)
    requires p.x >= c.width || p.y >= c.height
    ensures Painted(c, p) == c
  {
    var d := Painted(c, p);
    SameRows(d.rows, c.rows, c.width);
  }

  lemma {:induction false} AllOutsideIsKept(c: Image, ps: seq<Paint>)
    requires forall p :: p in ps ==> p.x >= c.width || p.y >= c.height
    ensures PaintAll(c, ps) == c
    decreases |ps|
  {
    hide Painted;
    if ps != [] {
      OutsideIsKept(c, ps[0]);
      AllOutsideIsKept(c, ps[1..]);
    }
  }
}
