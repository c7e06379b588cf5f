/**
 Bytes, options and big-endian integers of fixed width.
 */
module Bytes {
  type byte = x: int | 0 <= x < 256
  type u16 = x: int | 0 <= x < 0x1_0000
  type u24 = x: int | 0 <= x < 0x100_0000

  datatype Option<+T> = None | Some(value: T)

  /** Byte number i of x, counting from the least significant. */
  function ByteOf(x: nat, i: nat): byte
    requires i < 3
  {
    if i == 0 then x % 256 else if i == 1 then x / 256 % 256 else x / 0x1_0000 % 256
  }

  function U16(b1: byte, b0: byte): u16 {
    b1 as int * 256 + b0
  }

  function U24(b2: byte, b1: byte, b0: byte): u24 {
    b2 as int * 0x1_0000 + b1 as int * 256 + b0
  }

  lemma U16OfBytes(x: u16)
    ensures U16(ByteOf(x, 1), ByteOf(x, 0)) == x
  {
  }

  lemma U24OfBytes(x: u24)
    ensures U24(ByteOf(x, 2), ByteOf(x, 1), ByteOf(x, 0)) == x
  {
  }

  lemma BytesOfU16(b1: byte, b0: byte)
    ensures ByteOf(U16(b1, b0), 1) == b1 && ByteOf(U16(b1, b0), 0) == b0
  {
  }

  lemma BytesOfU24(b2: byte, b1: byte, b0: byte)
    ensures var x := U24(b2, b1, b0);
            ByteOf(x, 2) == b2 && ByteOf(x, 1) == b1 && ByteOf(x, 0) == b0
  {
  }
}
