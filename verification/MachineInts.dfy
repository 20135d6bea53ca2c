/** The fixed-width integers of the source. Every arithmetic operation on them carries a
    proof obligation that its result stays in range, so a function written on these types
    that verifies has no wrapping subtraction and no lossy cast. */
module MachineInts {
  newtype u32 = x: int | 0 <= x < 0x1_0000_0000
  newtype u64 = x: int | 0 <= x < 0x1_0000_0000_0000_0000
  newtype i64 = x: int | -0x8000_0000_0000_0000 <= x < 0x8000_0000_0000_0000

  type byte = x: int | 0 <= x < 256
}
