/** Strings of bytes. */
module ByteStrings {

  type Byte = bv8

  type Bytes = seq<Byte>
}
