/** Results of operations that may fail, and optional values. */
module Wrappers {

  datatype Option<+T> = None | Some(value: T)

  /** A value, or the error an operation raises instead. */
  datatype Result<+T, +E> = Success(value: T) | Failure(error: E)
}
