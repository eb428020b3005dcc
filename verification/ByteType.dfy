/** The bytes of files, buffers and records. */
module ByteType {
  newtype byte = x: int | 0 <= x < 256
}
