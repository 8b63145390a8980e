/** The value wrappers shared by every component, and the machine widths of the source. */
module Wrappers {

  datatype Option<+T> = None | Some(value: T)

  /** Why an operation was refused is kept only where it changes what the caller does next. */
  datatype Result<+T, +E> = Ok(value: T) | Err(error: E)

  const U64_MAX: nat := 0xFFFF_FFFF_FFFF_FFFF
  const U32_MAX: nat := 0xFFFF_FFFF

  type u32 = n: int | 0 <= n <= 0xFFFF_FFFF
  type u64 = n: int | 0 <= n <= 0xFFFF_FFFF_FFFF_FFFF
  type i64 = n: int | -0x8000_0000_0000_0000 <= n < 0x8000_0000_0000_0000

  type byte = b: int | 0 <= b < 256
  type bytes = seq<byte>
}
