/** Option and Result values for the error paths of the source, and the
    fixed-width integer types that appear in its signatures. */
module Prelude {

  datatype Option<+T> = None | Some(value: T)

  datatype Result<+R, +E> = Success(value: R) | Failure(error: E)

  const U32_MODULUS: int := 0x1_0000_0000

  /** Rust's `u32`. */
  type u32 = x: int | 0 <= x < U32_MODULUS

  /** Rust's `i32`, the type of a process exit code. */
  type i32 = x: int | -0x8000_0000 <= x < 0x8000_0000
}
