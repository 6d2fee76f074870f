/** Bytes, as the wire formats and the pipes of child processes carry them. */
module Octets {

  type byte = b: int | 0 <= b < 256

  type Bytes = seq<byte>
}
