/**
 * Fixed-width machine integers shared by the Windows (C++) and the Android
 * (Java) parts of the plugin. Dafny integers are unbounded, so every width
 * the code relies on is a subset type, and the one narrowing conversion the
 * code performs (Java's `long` to `int`) is written out.
 */
module Ints {

  /** BYTE / uint8_t / unsigned char */
  type byte = b: int | 0 <= b < 0x100

  /** WORD */
  type uint16 = v: int | 0 <= v < 0x1_0000

  /** DWORD, uint32_t */
  type uint32 = v: int | 0 <= v < 0x1_0000_0000

  /** LONG on Windows, int32_t, Java int */
  type int32 = v: int | -0x8000_0000 <= v < 0x8000_0000

  /** Java long */
  type int64 = v: int | -0x8000_0000_0000_0000 <= v < 0x8000_0000_0000_0000

  const Int32Max: int := 0x7FFF_FFFF

  /**
   * Java's narrowing conversion `(int) v`: keep the low 32 bits and read them
   * as a two's complement number.
   */
  function Wrap32(v: int): (r: int32)
    ensures (r - v) % 0x1_0000_0000 == 0
    ensures -0x8000_0000 <= v < 0x8000_0000 ==> r == v
  {
    (v + 0x8000_0000) % 0x1_0000_0000 - 0x8000_0000
  }
}
