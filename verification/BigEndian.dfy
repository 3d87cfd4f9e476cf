/** The big-endian integers of Go's encoding/binary, for any width in bytes. */
module BigEndian {
  import opened Prelude

  /** h moved n bytes to the left. */
  function Shift(h: nat, n: nat): nat {
    if n == 0 then h else 256 * Shift(h, n - 1)
  }

  /** The low n bytes of v, most significant first: writing a value that is too wide truncates it. */
  function ToBytes(v: nat, n: nat): (s: Bytes)
    ensures |s| == n
  {
    if n == 0 then [] else ToBytes(v / 256, n - 1) + [v % 256]
  }

  function FromBytes(s: Bytes): nat {
    if s == [] then 0 else 256 * FromBytes(s[..|s| - 1]) + s[|s| - 1]
  }

  /** What the low n bytes of v leave out. */
  function HighPart(v: nat, n: nat): nat {
    if n == 0 then v else HighPart(v / 256, n - 1)
  }

  /** Reading back what was written loses exactly the high part. */
  lemma {:induction false} RoundTrip(v: nat, n: nat)
    ensures v == Shift(HighPart(v, n), n) + FromBytes(ToBytes(v, n))
  {
    if n == 0 {
    } else {
      assert ToBytes(v, n)[..n - 1] == ToBytes(v / 256, n - 1);
      RoundTrip(v / 256, n - 1);
    }
  }

  lemma {:induction false} FromBytesBound(s: Bytes)
    ensures FromBytes(s) < Shift(1, |s|)
  {
    if s == [] {
    } else {
      FromBytesBound(s[..|s| - 1]);
    }
  }

  lemma Widths(h: nat)
    ensures Shift(h, 4) == TWO_TO_THE_32 * h
    ensures Shift(h, 8) == TWO_TO_THE_64 * h
  {
    assert Shift(h, 1) == 256 * h;
    assert Shift(h, 2) == 65536 * h;
    assert Shift(h, 4) == 65536 * Shift(h, 2);
    assert Shift(h, 6) == 65536 * Shift(h, 4);
    assert Shift(h, 8) == 65536 * Shift(h, 6);
  }

  function U32Bytes(v: nat): (s: Bytes)
    ensures |s| == 4
  {
    ToBytes(v, 4)
  }

  function U64Bytes(v: nat): (s: Bytes)
    ensures |s| == 8
  {
    ToBytes(v, 8)
  }

  lemma LastByte(v: nat, n: nat)
    requires n > 0
    ensures ToBytes(v, n) == ToBytes(v / 256, n - 1) + [v % 256]
  {
  }

  lemma Quarters(v: nat)
    ensures v / 256 / 256 == v / 0x1_0000 && v / 256 / 256 / 256 == v / 0x100_0000
    ensures v / 256 / 256 / 256 / 256 == v / 0x1_0000_0000
  {
  }

  lemma LastFour(v: nat, n: nat)
    requires n >= 4
    ensures ToBytes(v, n)
            == ToBytes(v / 0x1_0000_0000, n - 4)
               + [v / 0x100_0000 % 256, v / 0x1_0000 % 256, v / 0x100 % 256, v % 256]
  {
    hide ToBytes;
    Quarters(v);
    var a, b, c := v / 256, v / 0x1_0000, v / 0x100_0000;
    LastByte(v, n);
    LastByte(a, n - 1);
    LastByte(b, n - 2);
    LastByte(c, n - 3);
  }

  /** The bytes of a length, most significant first. */
  lemma U32BytesAre(v: nat)
    ensures U32Bytes(v) == [v / 0x100_0000 % 256, v / 0x1_0000 % 256, v / 0x100 % 256, v % 256]
  {
    LastFour(v, 4);
  }

  /** An amount is its high half, then its low half. */
  lemma U64BytesAre(v: nat)
    ensures U64Bytes(v) == U32Bytes(v / 0x1_0000_0000) + U32Bytes(v)
  {
    hide ToBytes;
    LastFour(v, 8);
    U32BytesAre(v);
  }

  function U32Of(s: Bytes): (v: uint32)
    requires |s| == 4
  {
    FromBytesBound(s);
    Widths(1);
    FromBytes(s)
  }

  function U64Of(s: Bytes): (v: uint64)
    requires |s| == 8
  {
    FromBytesBound(s);
    Widths(1);
    FromBytes(s)
  }

  lemma LowPart32(v: nat, h: nat, low: nat)
    requires v == TWO_TO_THE_32 * h + low && low < TWO_TO_THE_32
    ensures v % TWO_TO_THE_32 == low
  {
  }

  lemma LowPart64(v: nat, h: nat, low: nat)
    requires v == TWO_TO_THE_64 * h + low && low < TWO_TO_THE_64
    ensures v % TWO_TO_THE_64 == low
  {
  }

  lemma U32RoundTrip(v: nat)
    ensures U32Of(U32Bytes(v)) == v % TWO_TO_THE_32
  {
    RoundTrip(v, 4);
    Widths(HighPart(v, 4));
    LowPart32(v, HighPart(v, 4), U32Of(U32Bytes(v)));
  }

  lemma U64RoundTrip(v: nat)
    ensures U64Of(U64Bytes(v)) == v % TWO_TO_THE_64
  {
    RoundTrip(v, 8);
    Widths(HighPart(v, 8));
    LowPart64(v, HighPart(v, 8), U64Of(U64Bytes(v)));
  }
}
