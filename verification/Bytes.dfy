/** Bytes and 32-bit words, shared by every module. */
module Bytes {
  type byte = x: int | 0 <= x < 256

  newtype uint32 = x: int | 0 <= x < 0x1_0000_0000
}
