/** Bytes, as the wire and file formats use them. */
module Bytes {
  type Byte = x: int | 0 <= x < 256
}
