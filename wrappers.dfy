/** Machine integer widths and the result types the driver's signatures use. */
module Wrappers {

  /** Rust's unsigned integer types. Arithmetic on them is checked by Dafny
      exactly as Rust's debug build checks it: no result may leave the range. */
  newtype u8 = x: int | 0 <= x < 0x100
  newtype u16 = x: int | 0 <= x < 0x1_0000
  newtype u32 = x: int | 0 <= x < 0x1_0000_0000
  newtype u64 = x: int | 0 <= x < 0x1_0000_0000_0000_0000

  datatype Option<+T> = None | Some(value: T)

  /** core::result::Result */
  datatype Result<+T, +E> = Ok(value: T) | Err(error: E)

  /** nb::Result<T, E>: a non-blocking operation either finished with a value,
      is not finished yet, or failed with an error. */
  datatype NbResult<+T, +E> = Ready(value: T) | WouldBlock | Other(error: E)
}
