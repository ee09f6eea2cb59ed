/** Machine integer ranges and the optional-value type shared by the voxel core. */
module Primitives {

  /** An 8-bit block id: 0 is air, anything else is solid material. */
  type u8 = x: int | 0 <= x < 0x100

  /** The 32-bit unsigned world seed. */
  type u32 = x: int | 0 <= x < 0x1_0000_0000

  /** A 32-bit signed world or chunk coordinate. */
  type i32 = x: int | -0x8000_0000 <= x < 0x8000_0000

  datatype Option<+T> = None | Some(value: T)
}
