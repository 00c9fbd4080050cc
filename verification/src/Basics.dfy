/** Small wrappers shared by every module. */
module Basics {
  const MAX_CODE_POINT: nat := 0x10_ffff
  const U32_MAX: nat := 0xffff_ffff
  const U64_MAX: nat := 0xffff_ffff_ffff_ffff

  function Max(a: nat, b: nat): nat {
    if a >= b then a else b
  }

  function Min(a: nat, b: nat): nat {
    if a < b then a else b
  }

  type Byte = b: nat | b < 256

  /** Whether a byte looks like a UTF-8 continuation. */
  predicate IsContinuation(b: Byte) {
    0x80 <= b < 0xc0
  }

  datatype Option<+T> = None | Some(value: T)

  datatype Result<+T, +E> = Ok(value: T) | Err(error: E)
}
