/** Fixed-width integer ranges and the failure-carrying wrappers shared by the other modules. */
module Primitives {

  const U8_LIMIT: int := 0x100
  const U64_LIMIT: int := 0x1_0000_0000_0000_0000
  const I64_MAX: int := 0x7FFF_FFFF_FFFF_FFFF
  const I64_MIN: int := -0x8000_0000_0000_0000

  /** Rust `u8`. */
  type U8 = x: int | 0 <= x < U8_LIMIT
  /** Rust `u64`. */
  type U64 = x: int | 0 <= x < U64_LIMIT
  /** Rust `i64`. */
  type I64 = x: int | I64_MIN <= x <= I64_MAX
  /** Rust `usize` on a 64-bit target. */
  type Usize = x: int | 0 <= x < U64_LIMIT

  datatype Option<+T> = None | Some(value: T) {
    /** Rust `Option::unwrap_or`. */
    function UnwrapOr(default: T): T {
      match this
      case Some(v) => v
      case None => default
    }
  }

  datatype Result<+T, +E> = Success(value: T) | Failure(error: E)
}
