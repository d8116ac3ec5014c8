/** Option and Result datatypes shared by the other modules. */
module Wrappers {

  /** A value that may be absent: Python's `None` or a missing dictionary key. */
  datatype Option<+T> = None | Some(value: T)

  /** Either a value or the error that the Python code would have raised. */
  datatype Result<+T, +E> = Success(value: T) | Failure(error: E)
}
