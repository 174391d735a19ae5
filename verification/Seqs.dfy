/** Reading on in a byte string whose remainder is known, and runs of equal elements. */
module Seqs {
  /** How often `value` repeats at the start of `s`, at most `cap` times. */
  function RunOf<T(==)>(s: seq<T>, value: T, cap: nat): (n: nat)
    ensures n <= |s| && n <= cap
    ensures forall i :: 0 <= i < n ==> s[i] == value
    ensures n == cap || n == |s| || s[n] != value
    decreases cap
  {
    if s == [] || cap == 0 || s[0] != value then 0 else 1 + RunOf(s[1..], value, cap - 1)
  }

  lemma Advance<T>(data: seq<T>, p: nat, front: seq<T>, rest: seq<T>, tail: seq<T>)
    requires p <= |data| && data[p..] == front + rest + tail
    ensures p + |front| <= |data| && data[p..] == front + (rest + tail)
    ensures data[p..p + |front|] == front && data[p + |front|..] == rest + tail
  {
    var all := data[p..];
    assert all == front + (rest + tail);
    assert all[..|front|] == front && all[|front|..] == rest + tail;
    assert data[p..p + |front|] == all[..|front|];
    assert data[p + |front|..] == all[|front|..];
  }
}
