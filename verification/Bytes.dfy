/** Octets, for the packets and files whose bytes carry numbers. */
module Bytes {
  type Byte = x: int | 0 <= x < 256
}
