/** What several modules share: bytes and 32-bit words as numbers, and optional results. */
module Base {

  /** The number of 32-bit words. */
  const U32: nat := 0x1_0000_0000

  type Byte = b: int | 0 <= b < 0x100
  type Word = w: int | 0 <= w < 0x1_0000_0000

  datatype Option<T> = None | Some(value: T)
}
