/** The C type uint8_t. */
module Bytes {
  type byte = x: int | 0 <= x < 0x100

  /** What a store into a uint8_t keeps of an integer. */
  function Low(x: int): byte {
    x % 0x100
  }
}
