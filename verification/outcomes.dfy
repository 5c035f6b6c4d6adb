/** Option and Result values standing in for Python's `None` returns and raised exceptions. */
module Outcomes {

  /** A value that may be absent, as a Python `Optional[T]`. */
  datatype Option<+T> = None | Some(value: T)

  /** Either a computed value or the error the Python code would raise. */
  datatype Result<+T, +E> = Success(value: T) | Failure(error: E)
}
