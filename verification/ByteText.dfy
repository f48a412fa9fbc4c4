/** Byte strings, which is what Go strings and buffers are. */
module ByteText {
  newtype Byte = b: int | 0 <= b < 256
  type Bytes = seq<Byte>
}
