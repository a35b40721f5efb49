/** Bytes and the little-endian 32-bit words of the i386 in them. */
module Bytes {
  type byte = x: int | 0 <= x < 256

  const WORD: nat := 0x1_0000_0000

  function LE32(v: int): (b: seq<byte>)
    requires 0 <= v < WORD
    ensures |b| == 4
  {
    [v % 256, v / 256 % 256, v / 65536 % 256, v / 16777216]
  }

  function FromLE32(b: seq<byte>): int
    requires |b| == 4
  {
    b[0] as int + 256 * (b[1] as int) + 65536 * (b[2] as int) + 16777216 * (b[3] as int)
  }

  lemma LE32RoundTrip(v: int)
    requires 0 <= v < WORD
    ensures FromLE32(LE32(v)) == v
  {
    assert v / 65536 == v / 256 / 256;
    assert v / 16777216 == v / 65536 / 256;
  }
}
