/** The bit reader of the RemoteFX Progressive decoder: a cursor over a byte slice. */
module BitReading {
  import opened Machine
  import opened Bits

  class BitReader {
    const data: seq<Byte>
    var bitPos: nat

    ghost predicate Valid()
      reads this
    {
      bitPos <= 8 * |data|
    }

    /** The bits not read yet. */
    ghost function Rest(): (s: Stream)
      reads this
      requires Valid()
      ensures Length(s) == 8 * |data| - bitPos
    {
      StreamOf(data, bitPos)
    }

    constructor (data: seq<Byte>)
      ensures Valid() && this.data == data && Rest() == StreamOf(data, 0)
    {
      this.data := data;
      bitPos := 0;
    }

    function Remaining(): (n: nat)
      reads this
      requires Valid()
      ensures n == Length(Rest())
    {
      8 * |data| - bitPos
    }

    function PeekBit(): (b: Option<bool>)
      reads this
      requires Valid()
      ensures b == match Rest() case End => None case Bit(h, _) => Some(h)
    {
      if bitPos >= 8 * |data| then None else Some(ByteBit(data[bitPos / 8], bitPos % 8))
    }

    method ReadBit() returns (b: Option<bool>)
      requires Valid()
      modifies this`bitPos
      ensures Valid()
      ensures b == match old(Rest()) case End => None case Bit(h, _) => Some(h)
      ensures Rest() == NextZ(old(Rest()))
    {
      b := PeekBit();
      if b.Some? {
        bitPos := bitPos + 1;
      }
    }

    /** Reads `n` bits, zeros standing in for those behind the end. */
    method ReadBits(n: nat) returns (v: nat)
      requires Valid()
      modifies this`bitPos
      ensures Valid()
      ensures (v, Rest()) == GetBitsZ(old(Rest()), n, 0)
    {
      v := 0;
      for i := 0 to n
        invariant Valid()
        invariant GetBitsZ(old(Rest()), n, 0) == GetBitsZ(Rest(), n - i, v)
      {
        var b := ReadBit();
        v := 2 * v + if b.Some? && b.value then 1 else 0;
      }
    }

    /** Consumes the bits equal to `target` and counts them. */
    method ConsumeRun(target: bool) returns (count: nat)
      requires Valid()
      modifies this`bitPos
      ensures Valid()
      ensures count == RunLength(old(Rest()), target)
      ensures Rest() == Skip(old(Rest()), count)
    {
      count := 0;
      while PeekBit() == Some(target)
        invariant Valid()
        invariant count <= Length(old(Rest())) && Rest() == Skip(old(Rest()), count)
        invariant RunLength(old(Rest()), target) == count + RunLength(Rest(), target)
        decreases Remaining()
      {
        SkipOneMore(old(Rest()), count);
        bitPos := bitPos + 1;
        count := count + 1;
      }
    }
  }
}
