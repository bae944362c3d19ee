// Fixed-width integers of the C programs, as ranges of int.
module Machine {

  const SIZE_32 := 0x1_0000_0000
  const SIZE_64 := 0x1_0000_0000_0000_0000

  type UInt32 = x: int | 0 <= x < SIZE_32
  type UInt64 = x: int | 0 <= x < SIZE_64
  type Int32 = x: int | -0x8000_0000 <= x < 0x8000_0000
  type Int64 = x: int | -0x8000_0000_0000_0000 <= x < 0x8000_0000_0000_0000

  // Unsigned arithmetic wraps.
  function Wrap64(x: int): UInt64 {
    x % SIZE_64
  }

  // Conversion of a long to an int keeps the low 32 bits.
  function Truncate32(x: Int64): Int32 {
    var low := x % SIZE_32;
    if low < 0x8000_0000 then low else low - SIZE_32
  }
}
