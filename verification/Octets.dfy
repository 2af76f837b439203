/** Octets, as the wire and the message payloads use them. */
module Octets {
  type byte = x: int | 0 <= x < 256 witness 0
  type Bytes = seq<byte>
}
