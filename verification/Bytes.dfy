/** Bytes, and runs of zero bytes. */
module Bytes {
  type Byte = b: int | 0 <= b < 256

  function ZeroBytes(n: nat): seq<Byte> {
    seq(n, i => 0)
  }
}
