/** Failure-compatible wrappers shared by the other modules. */
module Wrappers {

  /** A value that may be absent (a null pointer, a missing field). */
  datatype Option<+T> = None | Some(value: T)

  /** Either a successfully built value or the error that stopped its construction. */
  datatype Result<+R, +E> = Success(value: R) | Failure(error: E)
}
