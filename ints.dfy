// The fixed-width unsigned integer of the source used as a count and an
// index: u32 pixel counts and pixel indices.
module Ints {
  newtype u32 = x: int | 0 <= x < 0x1_0000_0000
}
