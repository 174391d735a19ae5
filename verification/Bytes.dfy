/** Reading little-endian fields from the front of what is left of a byte string. */
module Bytes {
  import opened Machine
  import opened Seqs

  function ReadU8(data: seq<Byte>, p: nat): (r: Option<(Byte, nat)>)
    ensures r.Some? ==> p < r.value.1 <= |data|
  {
    if p < |data| then Some((data[p], p + 1)) else None
  }

  function ReadU16(data: seq<Byte>, p: nat): (r: Option<(U16, nat)>)
    ensures r.Some? ==> p < r.value.1 <= |data|
  {
    if p + 2 <= |data| then Some((Le16(data[p], data[p + 1]), p + 2)) else None
  }

  function ReadU32(data: seq<Byte>, p: nat): (r: Option<(U32, nat)>)
    ensures r.Some? ==> p < r.value.1 <= |data|
  {
    if p + 4 <= |data| then Some((Le32(data[p], data[p + 1], data[p + 2], data[p + 3]), p + 4)) else None
  }

  function ReadBytes(data: seq<Byte>, p: nat, n: nat): (r: Option<(seq<Byte>, nat)>)
    ensures r.Some? ==> p <= r.value.1 <= |data| && |r.value.0| == n
  {
    if p + n <= |data| then Some((data[p..p + n], p + n)) else None
  }

  // ---------- Reading back what was written ----------

  lemma U8Back(data: seq<Byte>, p: nat, v: Byte, rest: seq<Byte>)
    requires p <= |data| && data[p..] == [v] + rest
    ensures ReadU8(data, p) == Some((v, p + 1)) && data[p + 1..] == rest
  {
    Advance(data, p, [v], rest, []);
    assert [v] + rest + [] == [v] + rest && rest + [] == rest;
    assert data[p] == data[p..][0];
  }

  lemma U16Back(data: seq<Byte>, p: nat, v: U16, rest: seq<Byte>)
    requires p <= |data| && data[p..] == Le16Bytes(v) + rest
    ensures ReadU16(data, p) == Some((v, p + 2)) && data[p + 2..] == rest
  {
    var w := Le16Bytes(v);
    hide Le16Bytes, Le16;
    Advance(data, p, w, rest, []);
    assert w + rest + [] == w + rest && rest + [] == rest;
    assert data[p] == data[p..p + 2][0] && data[p + 1] == data[p..p + 2][1];
  }

  lemma U32Back(data: seq<Byte>, p: nat, v: U32, rest: seq<Byte>)
    requires p <= |data| && data[p..] == Le32Bytes(v) + rest
    ensures ReadU32(data, p) == Some((v, p + 4)) && data[p + 4..] == rest
  {
    var w := Le32Bytes(v);
    hide Le32Bytes, Le32;
    Advance(data, p, w, rest, []);
    assert w + rest + [] == w + rest && rest + [] == rest;
    var q := data[p..p + 4];
    assert data[p] == q[0] && data[p + 1] == q[1] && data[p + 2] == q[2] && data[p + 3] == q[3];
  }

  lemma BytesBack(data: seq<Byte>, p: nat, v: seq<Byte>, rest: seq<Byte>)
    requires p <= |data| && data[p..] == v + rest
    ensures ReadBytes(data, p, |v|) == Some((v, p + |v|)) && data[p + |v|..] == rest
  {
    Advance(data, p, v, rest, []);
    assert v + rest + [] == v + rest && rest + [] == rest;
  }

  /** The client's cursor over a byte string. */
  class ByteReader {
    const data: seq<Byte>
    var pos: nat

    ghost predicate Valid()
      reads this
    {
      pos <= |data|
    }

    constructor (data: seq<Byte>)
      ensures Valid() && pos == 0 && this.data == data
    {
      this.data := data;
      pos := 0;
    }

    function Remaining(): nat
      requires Valid()
      reads this
    {
      |data| - pos
    }

    method U8() returns (r: Option<Byte>)
      requires Valid()
      modifies this
      ensures Valid()
      ensures r.None? <==> ReadU8(data, old(pos)).None?
      ensures r.Some? ==> ReadU8(data, old(pos)) == Some((r.value, pos))
    {
      if pos >= |data| {
        return None;
      }
      var b := data[pos];
      pos := pos + 1;
      return Some(b);
    }

    method U16() returns (r: Option<U16>)
      requires Valid()
      modifies this
      ensures Valid()
      ensures r.None? <==> ReadU16(data, old(pos)).None?
      ensures r.Some? ==> ReadU16(data, old(pos)) == Some((r.value, pos))
    {
      if Remaining() < 2 {
        return None;
      }
      var v := Le16(data[pos], data[pos + 1]);
      pos := pos + 2;
      return Some(v);
    }

    method U32() returns (r: Option<U32>)
      requires Valid()
      modifies this
      ensures Valid()
      ensures r.None? <==> ReadU32(data, old(pos)).None?
      ensures r.Some? ==> ReadU32(data, old(pos)) == Some((r.value, pos))
    {
      if Remaining() < 4 {
        return None;
      }
      var v := Le32(data[pos], data[pos + 1], data[pos + 2], data[pos + 3]);
      pos := pos + 4;
      return Some(v);
    }

    method Bytes(n: nat) returns (r: Option<seq<Byte>>)
      requires Valid()
      modifies this
      ensures Valid()
      ensures r.None? <==> ReadBytes(data, old(pos), n).None?
      ensures r.Some? ==> ReadBytes(data, old(pos), n) == Some((r.value, pos))
    {
      if Remaining() < n {
        return None;
      }
      var v := data[pos..pos + n];
      pos := pos + n;
      return Some(v);
    }
  }
}
