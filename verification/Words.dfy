/** The sizes of numbers that a machine word or a part of it can hold. */
module Words {
  type byte = x: int | 0 <= x < 256
  type u16 = x: int | 0 <= x < 0x1_0000
  type u32 = x: int | 0 <= x < 0x1_0000_0000
}
