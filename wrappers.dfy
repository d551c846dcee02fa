/** Python's `None` returns and raised exceptions, written as values. */
module Wrappers {

  /** A value that may be missing, like Python's `None`-or-value returns. */
  datatype Option<+T> = None | Some(value: T)

  /** Either a value or the error the Python code raises instead. */
  datatype Result<+T, +E> = Ok(value: T) | Err(error: E)
}
