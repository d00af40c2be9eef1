/** Eight bits of memory. */
module Bytes {
  newtype byte = x: int | 0 <= x < 0x100
}
