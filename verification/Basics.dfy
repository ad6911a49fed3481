/** Bytes and the smaller of two numbers. */
module Basics {
  type Byte = x: int | 0 <= x < 256

  function Min(a: int, b: int): int {
    if a <= b then a else b
  }
}
