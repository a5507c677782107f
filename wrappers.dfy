/** Option and Result values used for the program's error paths. */
module Wrappers {

  datatype Option<+T> = None | Some(value: T)

  /** A computation that either succeeds with a value or fails with an error
      (the Python code raises an exception in the second case). */
  datatype Result<+T, +E> = Success(value: T) | Failure(error: E)
}
