/** What several models share. */
module Common {

  datatype Option<+T> = None | Some(value: T)

  type Byte = b: int | 0 <= b < 256

  const TWO_32: nat := 0x1_0000_0000
}
