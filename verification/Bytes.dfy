// Numbers as bytes, least significant byte first.

module Bytes {
  type Byte = x: int | 0 <= x < 256

  function Le16(v: int): (bs: seq<Byte>)
    ensures |bs| == 2
  {
    [v % 256, v / 256 % 256]
  }

  const TWO32: int := 0x1_0000_0000

  function Le32(v: int): (bs: seq<Byte>)
    ensures |bs| == 4
  {
    var u := v % TWO32;
    [u % 256, (u / 256) % 256, (u / 65536) % 256, u / 16777216]
  }

  function Signed32(bs: seq<Byte>): int
    requires |bs| == 4
  {
    var b0: int, b1: int, b2: int, b3: int := bs[0], bs[1], bs[2], bs[3];
    var u := b0 + 256 * b1 + 65536 * b2 + 16777216 * b3;
    if u < 0x8000_0000 then u else u - TWO32
  }

  lemma Displacement(v: int)
    requires -0x8000_0000 <= v < 0x8000_0000
    ensures Signed32(Le32(v)) == v
  {
    var u := v % TWO32;
    Digits(u);
    assert u == if v < 0 then v + TWO32 else v;
  }

  lemma Digits(u: int)
    requires 0 <= u < TWO32
    ensures u % 256 + 256 * ((u / 256) % 256) + 65536 * ((u / 65536) % 256) + 16777216 * (u / 16777216) == u
  {
    assert u / 65536 == (u / 256) / 256;
    assert u / 16777216 == (u / 65536) / 256;
  }

  // ----- Without sign -----

  function U16(bs: seq<Byte>): nat
    requires |bs| == 2
  {
    var lo: int, hi: int := bs[0], bs[1];
    lo + 256 * hi
  }

  function U32(bs: seq<Byte>): nat
    requires |bs| == 4
  {
    var b0: int, b1: int, b2: int, b3: int := bs[0], bs[1], bs[2], bs[3];
    b0 + 256 * b1 + 65536 * b2 + 16777216 * b3
  }

  lemma Read16(v: int)
    requires 0 <= v < 0x1_0000
    ensures U16(Le16(v)) == v
  {
  }

  lemma Read32(v: int)
    requires 0 <= v < TWO32
    ensures U32(Le32(v)) == v
  {
    assert v % TWO32 == v;
    Digits(v);
    OfDigits(v % 256, (v / 256) % 256, (v / 65536) % 256, v / 16777216);
  }

  lemma OfDigits(b0: Byte, b1: Byte, b2: Byte, b3: Byte)
    ensures U32([b0, b1, b2, b3]) == b0 as int + 256 * b1 + 65536 * b2 + 16777216 * b3
  {
  }
}
