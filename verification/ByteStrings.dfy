/** Bytes as the source's hashing and storage code sees them. */
module ByteStrings {

  newtype Byte = x: int | 0 <= x < 256

  type Bytes = seq<Byte>
}
