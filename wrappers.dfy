/** The failure-carrying values the model uses in place of Python's `None` and exceptions. */
module Wrappers {

  /** A value that may be absent (a Python `None`). */
  datatype Option<+T> = None | Some(value: T)

  /** The outcome of a step that either produces a value or fails with an error. */
  datatype Result<+T, +E> = Ok(value: T) | Err(error: E)
}
