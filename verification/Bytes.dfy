// Bytes, the views of a byte buffer that the code obtains by casting, and NUL-terminated text.
module Bytes {

  type byte = x: int | 0 <= x < 256

  /** A byte read as a two's complement `char`. */
  function Signed8(b: byte): (v: int)
    ensures -128 <= v < 128
    ensures (v - b) % 256 == 0
  {
    if b < 128 then b else b - 256
  }

  /** The byte that stores a `char` value. */
  function Store8(v: int): (b: byte)
    requires -128 <= v < 128
    ensures Signed8(b) == v
  {
    if v < 0 then v + 256 else v
  }

  /** Little-endian unsigned 16-bit number. */
  function U16(lo: byte, hi: byte): (v: int)
    ensures 0 <= v < 0x1_0000
  {
    lo + 256 * hi
  }

  /** Little-endian unsigned 32-bit number. */
  function U32(b0: byte, b1: byte, b2: byte, b3: byte): (v: int)
    ensures 0 <= v < 0x1_0000_0000
  {
    U16(b0, b1) + 0x1_0000 * U16(b2, b3)
  }

  /** Little-endian: the first byte is the lowest. */
  lemma LittleEndian(b0: byte, b1: byte, b2: byte, b3: byte)
    ensures U16(b0, b1) % 256 == b0 && U16(b0, b1) / 256 == b1
    ensures U32(b0, b1, b2, b3) == U16(b0, b1) + 65536 * U16(b2, b3)
  {
  }

  /** Two bytes read as a little-endian `int16_t`. */
  function Signed16(lo: byte, hi: byte): (v: int)
    ensures -0x8000 <= v < 0x8000
    ensures (v - U16(lo, hi)) % 0x1_0000 == 0
  {
    var u := U16(lo, hi);
    if u < 0x8000 then u else u - 0x1_0000
  }

  function Unsigned16(v: int): (u: int)
    requires -0x8000 <= v < 0x8000
    ensures 0 <= u < 0x1_0000
  {
    if v < 0 then v + 0x1_0000 else v
  }

  /** The low and high byte that store an `int16_t`. */
  function Lo16(v: int): byte
    requires -0x8000 <= v < 0x8000
  {
    Unsigned16(v) % 256
  }

  function Hi16(v: int): byte
    requires -0x8000 <= v < 0x8000
  {
    Unsigned16(v) / 256
  }

  /** Storing a sample and reading it back gives the sample. */
  lemma Store16(v: int)
    requires -0x8000 <= v < 0x8000
    ensures Signed16(Lo16(v), Hi16(v)) == v
  {
  }

  function Min(a: int, b: int): (m: int)
    ensures m <= a && m <= b && (m == a || m == b)
  {
    if a < b then a else b
  }
}
