/** Bytes as they go over the wire. */
module Wire {
  newtype Byte = b: int | 0 <= b < 256

  type Bytes = seq<Byte>
}
