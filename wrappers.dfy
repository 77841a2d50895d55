/** Failure-compatible wrappers shared by the game modules. */
module Wrappers {

  /** A value or nothing: JavaScript's `undefined` and `null` results. */
  datatype Option<+T> = None | Some(value: T)

  /** A value or the error a constructor throws. */
  datatype Result<+T, +E> = Success(value: T) | Failure(error: E)
}
