/** The widths of the integers that the programs compute with. */
module Widths {

  /** C's `int` on the platforms the repository builds for. */
  type Int32 = x: int | -0x8000_0000 <= x <= 0x7fff_ffff

  const INT_MAX: nat := 0x7fff_ffff

  type Uint16 = x: int | 0 <= x < 0x1_0000

  /** What a cast or an arithmetic result keeps in 16 bits. */
  function ToUint16(x: int): Uint16 { x % 0x1_0000 }
}
