/** Fixed-width integers and the Option/Result wrappers the model shares. */
module Prelude {

  /** Rust's `u8`. */
  newtype u8 = x: int | 0 <= x < 0x100

  /** Rust's `u32`. */
  newtype u32 = x: int | 0 <= x < 0x1_0000_0000

  /** Rust's `i32`. */
  newtype i32 = x: int | -0x8000_0000 <= x < 0x8000_0000

  const U8_MAX: nat := 0xff
  const I32_MAX: nat := 0x7fff_ffff
  /** The magnitude of `i32::MIN`. */
  const I32_MIN_MAGNITUDE: nat := 0x8000_0000

  datatype Option<T> = None | Some(value: T)

  datatype Result<T, E> = Ok(value: T) | Err(error: E)
}
