/**
 NSCodec (section 3.1.8.1 of MS-RDPNSC): the run-length plane code, the plane layout with and
 without chroma subsampling, and the colour conversion.
 */
module NsCodec {
  import opened Machine
  import opened Seqs

  const MAX_RUN := 0xFFFF_FFFF
  /** The bytes at the end of every plane that are never run-length coded. */
  const TAIL := 4

  // ---------- Run-length code ----------

  /** `count` copies of `value`; the next unit starts at `next`. */
  datatype Unit = Unit(value: Byte, count: nat, next: nat)

  function ReadUnit(data: seq<Byte>, p: nat, left: nat): (r: Option<Unit>)
    ensures r.Some? ==> p < r.value.next <= |data|
  {
    if p >= |data| then None
    else if left == 5 || p + 1 >= |data| || data[p + 1] != data[p] then Some(Unit(data[p], 1, p + 1))
    else if p + 2 >= |data| then None
    else if data[p + 2] < 0xFF then Some(Unit(data[p], data[p + 2] as int + 2, p + 3))
    else if p + 7 > |data| then None
    else Some(Unit(data[p], Le32(data[p + 3], data[p + 4], data[p + 5], data[p + 6]), p + 7))
  }

  function Fill(value: Byte, n: nat): (r: seq<Byte>)
    ensures |r| == n
  {
    seq(n, i => value)
  }

  function Before(front: seq<Byte>, rest: Result<seq<Byte>>): Result<seq<Byte>> {
    match rest
    case Ok(s) => Ok(front + s)
    case Err => Err
  }

  /** The `left` bytes of a plane that are still to come from `data[p..]`. */
  function RleFrom(data: seq<Byte>, p: nat, left: nat): (r: Result<seq<Byte>>)
    requires left >= TAIL
    ensures r.Ok? ==> |r.value| == left
    decreases |data| - p
  {
    if left == TAIL then
      if p + TAIL > |data| then Err else Ok(data[p..p + TAIL])
    else
      match ReadUnit(data, p, left)
      case None => Err
      case Some(u) =>
        if u.count > left - TAIL then Err else Before(Fill(u.value, u.count), RleFrom(data, u.next, left - u.count))
  }

  function Rle(data: seq<Byte>, size: nat): Result<seq<Byte>> {
    if size < TAIL then Err else RleFrom(data, 0, size)
  }

  // ---------- The sender's run-length code ----------

  function LongRun(value: Byte, n: nat): seq<Byte>
    requires 2 <= n <= MAX_RUN
  {
    [value, value] + if n - 2 < 0xFF then [n - 2] else [0xFF] + Le32Bytes(n)
  }

  /** The code of the next `n` bytes, as a sender chooses it. */
  function UnitCode(value: Byte, n: nat): seq<Byte>
    requires 1 <= n <= MAX_RUN
  {
    if n == 1 then [value] else LongRun(value, n)
  }

  /** Codes maximal runs; what comes last stays raw, and the byte before it is never a run. */
  function Encode(plane: seq<Byte>): (r: seq<Byte>)
    requires |plane| >= TAIL
    ensures |r| >= 4 && r[0] == plane[0]
    decreases |plane|
  {
    if |plane| == TAIL then plane
    else
      var n := RunOf(plane[..|plane| - TAIL], plane[0], MAX_RUN);
      UnitCode(plane[0], n) + Encode(plane[n..])
  }

  // ---------- The decoder inverts it ----------

  lemma UnitStep(data: seq<Byte>, p: nat, left: nat, u: Unit, rest: seq<Byte>)
    requires left > TAIL && ReadUnit(data, p, left) == Some(u) && u.count <= left - TAIL
    requires RleFrom(data, u.next, left - u.count) == Ok(rest)
    ensures RleFrom(data, p, left) == Ok(Fill(u.value, u.count) + rest)
  {
    hide ReadUnit;
  }

  lemma ReadLongRun(data: seq<Byte>, p: nat, left: nat, value: Byte, n: nat, more: seq<Byte>)
    requires p <= |data| && 2 <= n <= MAX_RUN && left != 5
    requires data[p..] == LongRun(value, n) + more
    ensures p + |LongRun(value, n)| <= |data|
    ensures ReadUnit(data, p, left) == Some(Unit(value, n, p + |LongRun(value, n)|))
  {
    var tail := data[p..];
    assert tail == LongRun(value, n) + more;
    assert data[p] == tail[0] && data[p + 1] == tail[1] && data[p + 2] == tail[2];
    if n - 2 >= 0xFF {
      var size := Le32Bytes(n);
      assert tail[3] == size[0] && tail[4] == size[1] && tail[5] == size[2] && tail[6] == size[3];
      assert data[p + 3] == tail[3] && data[p + 4] == tail[4] && data[p + 5] == tail[5] && data[p + 6] == tail[6];
    }
  }

  lemma ReadLiteral(data: seq<Byte>, p: nat, left: nat, value: Byte, more: seq<Byte>)
    requires p <= |data| && data[p..] == [value] + more
    requires left == 5 || more == [] || more[0] != value
    ensures ReadUnit(data, p, left) == Some(Unit(value, 1, p + 1))
  {
    assert data[p] == data[p..][0];
    if more != [] {
      assert data[p + 1] == data[p..][1];
    }
  }

  lemma ReadBack(data: seq<Byte>, p: nat, left: nat, value: Byte, n: nat, more: seq<Byte>)
    requires p <= |data| && 1 <= n <= MAX_RUN && (n > 1 ==> left != 5)
    requires data[p..] == UnitCode(value, n) + more
    requires n == 1 ==> left == 5 || more == [] || more[0] != value
    ensures p + |UnitCode(value, n)| <= |data|
    ensures ReadUnit(data, p, left) == Some(Unit(value, n, p + |UnitCode(value, n)|))
  {
    hide ReadUnit, LongRun;
    if n == 1 {
      ReadLiteral(data, p, left, value, more);
    } else {
      ReadLongRun(data, p, left, value, n, more);
    }
  }

  lemma FillThenRest(plane: seq<Byte>, n: nat)
    requires 0 < n <= |plane| && forall i :: 0 <= i < n ==> plane[i] == plane[0]
    ensures Fill(plane[0], n) + plane[n..] == plane
  {
    assert Fill(plane[0], n) == plane[..n];
  }

  /** One unit is read back in front of a plane that is. */
  lemma UnitBack(data: seq<Byte>, p: nat, value: Byte, n: nat, rest: seq<Byte>, more: seq<Byte>)
    requires p <= |data| && 1 <= n <= MAX_RUN && |rest| >= TAIL && (n == 1 ==> |rest| == TAIL || rest[0] != value)
    requires data[p..] == UnitCode(value, n) + more && more != [] && more[0] == rest[0]
    requires p + |UnitCode(value, n)| <= |data| && RleFrom(data, p + |UnitCode(value, n)|, |rest|) == Ok(rest)
    ensures RleFrom(data, p, n + |rest|) == Ok(Fill(value, n) + rest)
  {
    hide ReadUnit, UnitCode, Fill, RleFrom;
    ReadBack(data, p, n + |rest|, value, n, more);
    UnitStep(data, p, n + |rest|, Unit(value, n, p + |UnitCode(value, n)|), rest);
  }

  lemma {:induction false} RleRoundTripFrom(data: seq<Byte>, p: nat, plane: seq<Byte>, junk: seq<Byte>)
    requires |plane| >= TAIL && p <= |data| && data[p..] == Encode(plane) + junk
    ensures RleFrom(data, p, |plane|) == Ok(plane)
    decreases |plane|
  {
    hide ReadUnit, RunOf, LongRun, UnitCode, Fill, RleFrom;
    if |plane| == TAIL {
      TailRoundTrip(data, p, plane, junk);
    } else {
      var n := RunOf(plane[..|plane| - TAIL], plane[0], MAX_RUN);
      RunCovers(plane, n);
      EncodeStep(plane, n);
      hide Encode;
      var code: seq<Byte>, rest: seq<Byte> := UnitCode(plane[0], n), plane[n..];
      Advance(data, p, code, Encode(rest), junk);
      RleRoundTripFrom(data, p + |code|, rest, junk);
      UnitBack(data, p, plane[0], n, rest, Encode(rest) + junk);
    }
  }

  /** The run a sender codes stands for what it replaces, and a run of one is followed by another value. */
  lemma RunCovers(plane: seq<Byte>, n: nat)
    requires |plane| > TAIL && n == RunOf(plane[..|plane| - TAIL], plane[0], MAX_RUN)
    ensures 1 <= n <= MAX_RUN && n <= |plane| - TAIL && Fill(plane[0], n) + plane[n..] == plane
    ensures n == 1 ==> |plane| == 5 || plane[n..][0] != plane[0]
  {
    hide RunOf, Fill;
    RunIsPositive(plane);
    FillThenRest(plane, n);
  }

  lemma EncodeStep(plane: seq<Byte>, n: nat)
    requires |plane| > TAIL && n == RunOf(plane[..|plane| - TAIL], plane[0], MAX_RUN)
    ensures 1 <= n <= MAX_RUN && n <= |plane| - TAIL
    ensures Encode(plane) == UnitCode(plane[0], n) + Encode(plane[n..])
  {
    hide UnitCode, RunOf;
    RunIsPositive(plane);
  }

  lemma TailRoundTrip(data: seq<Byte>, p: nat, plane: seq<Byte>, junk: seq<Byte>)
    requires |plane| == TAIL && p <= |data| && data[p..] == plane + junk
    ensures RleFrom(data, p, TAIL) == Ok(plane)
  {
    assert data[p..p + TAIL] == data[p..][..TAIL] == plane;
  }

  lemma RunIsPositive(plane: seq<Byte>)
    requires |plane| > TAIL
    ensures var n := RunOf(plane[..|plane| - TAIL], plane[0], MAX_RUN);
            && 1 <= n <= |plane| - TAIL && n <= MAX_RUN && (forall i :: 0 <= i < n ==> plane[i] == plane[0])
            && (n == 1 ==> |plane| == 5 || plane[1] != plane[0])
  {
    var body := plane[..|plane| - TAIL];
    var n := RunOf(body, plane[0], MAX_RUN);
    assert body[0] == plane[0];
    forall i | 0 <= i < n
      ensures plane[i] == plane[0]
    {
      assert body[i] == plane[i];
    }
    if n == 1 && |plane| > 5 {
      assert body[1] == plane[1];
    }
  }

  /** Every plane of four bytes or more is recovered from its code, whatever follows the code. */
  lemma RleRoundTrip(plane: seq<Byte>, junk: seq<Byte>)
    requires |plane| >= TAIL
    ensures Rle(Encode(plane) + junk, |plane|) == Ok(plane)
  {
    hide RleFrom, Encode;
    var data := Encode(plane) + junk;
    assert data[0..] == data;
    RleRoundTripFrom(data, 0, plane, junk);
  }

  // ---------- Planes ----------

  function DecodePlane(data: seq<Byte>, size: nat): (r: Result<seq<Byte>>)
    ensures r.Ok? ==> |r.value| == size
  {
    if data == [] then Ok(Fill(0xFF, size))
    else if |data| >= size then Ok(data[..size])
    else Rle(data, size)
  }

  /** A sender codes a plane only where that makes it shorter. */
  function EncodePlane(plane: seq<Byte>): (r: seq<Byte>)
    ensures |r| <= |plane|
  {
    if |plane| >= TAIL && |Encode(plane)| < |plane| then Encode(plane) else plane
  }

  lemma PlaneRoundTrip(plane: seq<Byte>)
    ensures DecodePlane(EncodePlane(plane), |plane|) == Ok(plane)
  {
    hide Encode, Rle;
    if |plane| >= TAIL && |Encode(plane)| < |plane| {
      RleRoundTrip(plane, []);
      assert Encode(plane) + [] == Encode(plane);
    } else if plane == [] {
      assert Fill(0xFF, 0) == plane;
    } else {
      assert plane[..|plane|] == plane;
    }
  }
}
