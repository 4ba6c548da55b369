/** Bytes, and reading them from a stream. */
module Bytes {
  type Byte = x: nat | x < 256

  /** A value that was read, and what is left of the stream. */
  datatype Got<+T> = Got(value: T, rest: seq<Byte>)
}
