/** Small value types shared by the literal codec, the syndication tables and the operation cache. */
module Common {

  /** The conventional Some/None datatype, standing for a value or .NET's null. */
  datatype Option<+T> = None | Some(value: T)

  /** An unsigned 8-bit integer, .NET's System.Byte. */
  newtype byte = x: int | 0 <= x < 0x100
}
