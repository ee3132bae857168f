/** The failure-carrying values the model uses in place of Python's None and its exceptions. */
module Wrappers {

  /** A value or nothing: Python's `None` where a function may return it. */
  datatype Option<+T> = None | Some(value: T)

  /** A value, or the exception that was raised instead of producing one. */
  datatype Result<+R, +E> = Success(value: R) | Failure(error: E)
}
