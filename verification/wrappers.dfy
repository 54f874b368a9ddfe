/** Tagged outcomes used in place of Python's exceptions and missing values. */
module Wrappers {

  /** A value that may be absent: a conversion that did not succeed. */
  datatype Option<+T> = None | Some(value: T)

  /** Either a value or the error an operation raised. */
  datatype Result<+T, +E> = Success(value: T) | Failure(error: E)
}
