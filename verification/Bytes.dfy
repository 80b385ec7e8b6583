/** Octets. */
module Bytes {
  type byte = b: int | 0 <= b < 256 witness 0
}
