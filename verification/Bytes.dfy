/** Octets and the big-endian numbers made of them. */
module Bytes {
  type byte = x: int | 0 <= x < 256

  type bytes = seq<byte>

  /** Two octets, high first. */
  function U16(n: nat): bytes
    requires n < 0x1_0000
  {
    [n / 256, n % 256]
  }

  /** The number written by `b`, high octet first. */
  function BigEndian(b: bytes): nat {
    if b == [] then 0 else BigEndian(b[..|b| - 1]) * 256 + b[|b| - 1]
  }

  lemma BigEndianTwo(hi: byte, lo: byte)
    ensures BigEndian([hi]) == hi && BigEndian([hi, lo]) == hi * 256 + lo
  {
    assert [hi][..0] == [] && [hi, lo][..1] == [hi];
  }
}
