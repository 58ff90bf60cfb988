/** Bytes as they lie in buffers. */
module Octets {
  type byte = x: int | 0 <= x < 256

  type Bytes = seq<byte>
}
