/** Bytes, as the components see them that read raw input or encode text. */
module ByteStrings {
  type byte = b: int | 0 <= b < 256

  type Bytes = seq<byte>
}
