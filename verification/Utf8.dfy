/**
 Text from bytes that may not be well-formed UTF-8 (section 3.9 of the Unicode Standard): every
 maximal part of an ill-formed sequence becomes one U+FFFD. Text is represented by its UTF-8 bytes.
 */
module Utf8 {
  import opened Machine

  /** The bytes of U+FFFD. */
  const REPLACEMENT: seq<Byte> := [0xEF, 0xBF, 0xBD]

  /** The byte at `i`; zero, which continues nothing, behind the end. */
  function ByteAt(b: seq<Byte>, i: nat): Byte {
    if i < |b| then b[i] else 0
  }

  predicate Continues(b: Byte) {
    0x80 <= b <= 0xBF
  }

  /** How many bytes a sequence that begins with this one has; zero if none does. */
  function Width(first: Byte): (n: nat)
    ensures n <= 4
  {
    if first < 0x80 then 1
    else if 0xC2 <= first <= 0xDF then 2
    else if 0xE0 <= first <= 0xEF then 3
    else if 0xF0 <= first <= 0xF4 then 4
    else 0
  }

  /** Overlong forms, surrogates and numbers above U+10FFFF fail at the second byte. */
  predicate SecondFits(first: Byte, second: Byte) {
    if first == 0xE0 then 0xA0 <= second <= 0xBF
    else if first == 0xED then 0x80 <= second <= 0x9F
    else if first == 0xF0 then 0x90 <= second <= 0xBF
    else if first == 0xF4 then 0x80 <= second <= 0x8F
    else Continues(second)
  }

  /** The length of the sequence, or of the part of it that is well begun, at the front, and whether it is complete. */
  function Front(b: seq<Byte>): (r: (nat, bool))
    requires b != []
    ensures 1 <= r.0 <= |b| && r.0 <= 4
  {
    var n := Width(b[0]);
    if n == 0 then (1, false)
    else if n == 1 then (1, true)
    else if !SecondFits(b[0], ByteAt(b, 1)) then (1, false)
    else if n == 2 then (2, true)
    else if !Continues(ByteAt(b, 2)) then (2, false)
    else if n == 3 then (3, true)
    else if !Continues(ByteAt(b, 3)) then (3, false)
    else (4, true)
  }

  predicate WellFormed(b: seq<Byte>)
    decreases |b|
  {
    b == [] || (Front(b).1 && WellFormed(b[Front(b).0..]))
  }

  /** What the client reads. */
  function Lossy(b: seq<Byte>): (text: seq<Byte>)
    decreases |b|
  {
    if b == [] then []
    else
      var (n, complete) := Front(b);
      (if complete then b[..n] else REPLACEMENT) + Lossy(b[n..])
  }

  /** Where a sequence is complete depends on its own bytes only. */
  lemma FrontStays(b: seq<Byte>, rest: seq<Byte>)
    requires b != [] && Front(b).1
    ensures Front(b[..Front(b).0] + rest) == Front(b)
  {
  }

  lemma {:induction false} LossyIsWellFormed(b: seq<Byte>)
    ensures WellFormed(Lossy(b))
    decreases |b|
  {
    if b != [] {
      var (n, complete) := Front(b);
      var rest := Lossy(b[n..]);
      LossyIsWellFormed(b[n..]);
      if complete {
        FrontStays(b, rest);
        assert (b[..n] + rest)[n..] == rest;
      } else {
        assert Front(REPLACEMENT + rest) == (3, true) && (REPLACEMENT + rest)[3..] == rest;
      }
    }
  }

  lemma {:induction false} WellFormedIsKept(b: seq<Byte>)
    requires WellFormed(b)
    ensures Lossy(b) == b
    decreases |b|
  {
    if b != [] {
      WellFormedIsKept(b[Front(b).0..]);
    }
  }

  /** Exactly well-formed text is read as it was sent. */
  lemma {:induction false} KeptIfWellFormed(b: seq<Byte>)
    ensures Lossy(b) == b <==> WellFormed(b)
  {
    LossyIsWellFormed(b);
    if WellFormed(b) {
      WellFormedIsKept(b);
    }
  }

  predicate ReplacedAt(text: seq<Byte>, i: nat) {
    i + 3 <= |text| && text[i] == 0xEF && text[i + 1] == 0xBF && text[i + 2] == 0xBD
  }

  /** There is a replacement character somewhere in the text. */
  ghost predicate Replaced(text: seq<Byte>) {
    exists i: nat :: ReplacedAt(text, i)
  }

  lemma ReplacedBehind(front: seq<Byte>, rest: seq<Byte>)
    requires Replaced(rest)
    ensures Replaced(front + rest)
  {
    var i: nat :| ReplacedAt(rest, i);
    assert ReplacedAt(front + rest, |front| + i);
  }

  /** What is read without a replacement character is what was sent. */
  lemma {:induction false} SentOrReplaced(b: seq<Byte>)
    ensures Lossy(b) == b || Replaced(Lossy(b))
    decreases |b|
  {
    if b != [] {
      var (n, complete) := Front(b);
      var rest := Lossy(b[n..]);
      if complete {
        SentOrReplaced(b[n..]);
        if Replaced(rest) {
          ReplacedBehind(b[..n], rest);
        }
      } else {
        assert ReplacedAt(REPLACEMENT + rest, 0);
      }
    }
  }
}
