/** Fixed-width unsigned integers of the C source with its wrapping addition, and optional values. */
module Prelude {
  datatype Option<+T> = None | Some(value: T)

  const U32_MOD: int := 0x1_0000_0000
  const U64_MOD: int := 0x1_0000_0000_0000_0000

  type u8 = x: int | 0 <= x < 0x100
  type u16 = x: int | 0 <= x < 0x1_0000
  type u32 = x: int | 0 <= x < 0x1_0000_0000
  type u64 = x: int | 0 <= x < 0x1_0000_0000_0000_0000

  /** Unsigned 32-bit addition: the carry out of bit 31 is lost. */
  function Add32(a: u32, b: u32): (r: u32)
    ensures a + b < U32_MOD ==> r == a + b
    ensures a + b >= U32_MOD ==> r == a + b - U32_MOD
  {
    (a + b) % U32_MOD
  }
}
