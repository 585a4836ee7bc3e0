/** What every module needs: failure-compatible datatypes, and where 32-bit words end. */
module Wrappers {

  datatype Option<+T> = None | Some(value: T)

  datatype Result<+T, +E> = Success(value: T) | Failure(error: E)

  const U32: nat := 0x1_0000_0000
}
