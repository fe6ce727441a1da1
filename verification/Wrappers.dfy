/** Failure types and numbers shared by the other modules. */
module Wrappers {

  datatype Option<+T> = None | Some(value: T)

  datatype Result<+T> = Success(value: T) | Failure

  newtype Byte = b: int | 0 <= b < 256

  /** The largest number a signed 64-bit database column holds. */
  const I64_MAX: nat := 0x7fff_ffff_ffff_ffff

  function Min(a: nat, b: nat): nat {
    if a < b then a else b
  }
}
