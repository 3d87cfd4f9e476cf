/** Fixed-width integers, optional values and the few sequence facts the other modules share. */
module Prelude {

  datatype Option<+T> = None | Some(value: T)

  const TWO_TO_THE_32 := 0x1_0000_0000
  const TWO_TO_THE_64 := 0x1_0000_0000_0000_0000

  type byte = x: int | 0 <= x < 256
  type uint32 = x: int | 0 <= x < TWO_TO_THE_32
  type uint64 = x: int | 0 <= x < TWO_TO_THE_64

  const MAX_UINT32: uint32 := 0xFFFF_FFFF

  type Bytes = seq<byte>

  function Min(a: int, b: int): int {
    if a <= b then a else b
  }

  function Max(a: int, b: int): int {
    if a <= b then b else a
  }

  /** Go's unsigned 32-bit addition and subtraction, which wrap around. */
  function Add32(a: uint32, b: uint32): uint32 {
    (a + b) % TWO_TO_THE_32
  }

  function Sub32(a: uint32, b: uint32): uint32 {
    (a - b) % TWO_TO_THE_32
  }

  function Reverse<T>(s: seq<T>): (r: seq<T>)
    ensures |r| == |s|
    ensures forall i {:trigger r[i]} :: 0 <= i < |s| ==> r[i] == s[|s| - 1 - i]
  {
    seq(|s|, i requires 0 <= i < |s| => s[|s| - 1 - i])
  }

  lemma SliceOfMiddle<T>(pre: seq<T>, mid: seq<T>, post: seq<T>, a: nat, b: nat)
    requires a <= b <= |mid|
    ensures (pre + mid + post)[|pre| + a..|pre| + b] == mid[a..b]
  {
  }

  /** s[a..b], or nothing when there is no such range. */
  function Slice<T>(s: seq<T>, a: nat, b: nat): seq<T> {
    if a <= b <= |s| then s[a..b] else []
  }

  lemma SliceNext<T>(s: seq<T>, a: nat, b: nat)
    requires a <= b < |s|
    ensures Slice(s, a, b + 1) == Slice(s, a, b) + [s[b]]
    ensures Reverse(Slice(s, a, b + 1)) == [s[b]] + Reverse(Slice(s, a, b))
  {
    assert s[a..b + 1] == s[a..b] + [s[b]];
  }

  predicate Distinct<T(==)>(s: seq<T>) {
    forall i, j :: 0 <= i < j < |s| ==> s[i] != s[j]
  }

  lemma IndexOf<T>(s: seq<T>, x: T) returns (i: nat)
    requires x in s
    ensures i < |s| && s[i] == x
  {
    i :| 0 <= i < |s| && s[i] == x;
  }
}
