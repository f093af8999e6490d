/** Byte strings, as the log writer and the content digest handle them. */
module ByteStrings {
  newtype Byte = x: int | 0 <= x < 256

  type Bytes = seq<Byte>

  const NEWLINE: Byte := 10
  const SPACE: Byte := 32
  const SLASH: Byte := 47
}
