/** Types that several models share. */
module Basics {
  datatype Option<T> = None | Some(value: T)

  /** A byte where the bit operations on it matter. */
  type Byte = bv8

  /** A byte as a number. */
  type Octet = x: int | 0 <= x < 256
}
