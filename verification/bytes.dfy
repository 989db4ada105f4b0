/**
  Fixed-width unsigned integers and the little-endian byte order in which the
  FAT on-disk records store them. The C program obtains these values by casting
  a byte buffer to a packed struct on a little-endian host; here every field is
  decoded explicitly from its byte offset.
 */
module Bytes {
  type Byte = x: int | 0 <= x < 0x100
  type U16 = x: int | 0 <= x < 0x1_0000
  type U32 = x: int | 0 <= x < 0x1_0000_0000

  /** Reduction modulo 2^32: the value a `uint32_t` computation keeps. */
  function Wrap32(x: nat): (r: U32)
    ensures x < 0x1_0000_0000 ==> r == x
    ensures r <= x && (x - r) % 0x1_0000_0000 == 0
  {
    x % 0x1_0000_0000
  }

  /** The `uint16_t` stored little-endian at `s[off..off + 2]`: low byte first. */
  function LE16(s: seq<Byte>, off: nat): (r: U16)
    requires off + 2 <= |s|
    ensures r % 0x100 == s[off] && r / 0x100 == s[off + 1]
  {
    s[off] as int + 0x100 * s[off + 1] as int
  }

  /** The `uint32_t` stored little-endian at `s[off..off + 4]`: low half first. */
  function LE32(s: seq<Byte>, off: nat): (r: U32)
    requires off + 4 <= |s|
    ensures r % 0x1_0000 == LE16(s, off) && r / 0x1_0000 == LE16(s, off + 2)
  {
    LE16(s, off) as int + 0x1_0000 * LE16(s, off + 2) as int
  }

  /** The two bytes that store `x` little-endian; decoding them gives `x` back. */
  function Enc16(x: U16): (r: seq<Byte>)
    ensures |r| == 2 && LE16(r, 0) == x
  {
    [x % 0x100, x / 0x100]
  }

  /** The four bytes that store `x` little-endian; decoding them gives `x` back. */
  function Enc32(x: U32): (r: seq<Byte>)
    ensures |r| == 4 && LE32(r, 0) == x
  {
    Enc16(x % 0x1_0000) + Enc16(x / 0x1_0000)
  }

  /** Every pair of bytes is the encoding of the value it decodes to. */
  lemma Enc16OfLE16(s: seq<Byte>, off: nat)
    requires off + 2 <= |s|
    ensures Enc16(LE16(s, off)) == s[off..off + 2]
  {
  }

  /** Every four bytes are the encoding of the value they decode to. */
  lemma Enc32OfLE32(s: seq<Byte>, off: nat)
    requires off + 4 <= |s|
    ensures Enc32(LE32(s, off)) == s[off..off + 4]
  {
    Enc16OfLE16(s, off);
    Enc16OfLE16(s, off + 2);
    assert s[off..off + 4] == s[off..off + 2] + s[off + 2..off + 4];
  }
}
