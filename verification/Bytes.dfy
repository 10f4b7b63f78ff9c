/** Bytes and the fixed-width big- and little-endian integer layouts shared by the record codec,
    the control frames and the shared-memory snapshots. */
module Bytes {
  import opened Common

  type Byte = bv8

  lemma {:induction false} ByteOfInt(v: nat)
    requires v < 256
    ensures (v as Byte) as int == v
  {
    if v > 0 {
      ByteOfInt(v - 1);
      Successor((v - 1) as Byte, v);
    }
  }
  lemma Successor(b: Byte, v: nat)
    requires v < 256 && b as int == v - 1
    ensures (v as Byte) as int == v
  {
    assert b < 255;
    assert (b + 1) as int == b as int + 1;
    assert ((b + 1) as int) as Byte == b + 1;
  }

  lemma IntOfByte(b: Byte)
    ensures (b as int) as Byte == b
  {
  }

  /** 256 to the power n: the number of values n bytes can hold. */
  function Span(n: nat): (r: nat)
    ensures r > 0
  {
    if n == 0 then 1 else 256 * Span(n - 1)
  }

  lemma Widths()
    ensures Span(2) == U16_MAX + 1 && Span(4) == U32_MAX + 1 && Span(8) == U64_MAX + 1
  {
    assert Span(4) == 256 * (256 * Span(2));
    assert Span(6) == 256 * (256 * Span(4));
    assert Span(8) == 256 * (256 * Span(6));
  }

  function FromBigEndian(s: seq<Byte>): (v: nat)
    ensures v < Span(|s|)
  {
    if |s| == 0 then 0
    else 256 * FromBigEndian(s[..|s| - 1]) + s[|s| - 1] as int
  }

  function BigEndian(v: nat, n: nat): (s: seq<Byte>)
    requires v < Span(n)
    ensures |s| == n
  {
    if n == 0 then []
    else BigEndian(v / 256, n - 1) + [(v % 256) as Byte]
  }

  lemma {:induction false} BigEndianRoundTrip(v: nat, n: nat)
    requires v < Span(n)
    ensures FromBigEndian(BigEndian(v, n)) == v
  {
    if n > 0 {
      var head := BigEndian(v / 256, n - 1);
      assert BigEndian(v, n)[..n - 1] == head;
      BigEndianRoundTrip(v / 256, n - 1);
      ByteOfInt(v % 256);
    }
  }

  lemma {:induction false} BigEndianCanonical(s: seq<Byte>)
    ensures BigEndian(FromBigEndian(s), |s|) == s
  {
    if |s| > 0 {
      var head := s[..|s| - 1];
      BigEndianCanonical(head);
      IntOfByte(s[|s| - 1]);
      assert FromBigEndian(s) / 256 == FromBigEndian(head);
      assert FromBigEndian(s) % 256 == s[|s| - 1] as int;
    }
  }

  function FromLittleEndian(s: seq<Byte>): (v: nat)
    ensures v < Span(|s|)
  {
    if |s| == 0 then 0
    else s[0] as int + 256 * FromLittleEndian(s[1..])
  }

  function LittleEndian(v: nat, n: nat): (s: seq<Byte>)
    requires v < Span(n)
    ensures |s| == n
  {
    if n == 0 then []
    else [(v % 256) as Byte] + LittleEndian(v / 256, n - 1)
  }

  lemma {:induction false} LittleEndianRoundTrip(v: nat, n: nat)
    requires v < Span(n)
    ensures FromLittleEndian(LittleEndian(v, n)) == v
  {
    if n > 0 {
      LittleEndianRoundTrip(v / 256, n - 1);
      ByteOfInt(v % 256);
      assert LittleEndian(v, n)[1..] == LittleEndian(v / 256, n - 1);
    }
  }
}
