/** The contents of files: sequences of bytes. */
module Bytes {
  type byte = x: int | 0 <= x < 256
}
