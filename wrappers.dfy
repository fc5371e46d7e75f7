/** The optional-value and success-or-error datatypes used across the model. */
module Wrappers {

  /** A value that may be absent (pandas NA, a Python None). */
  datatype Option<+T> = None | Some(value: T)

  /** The outcome of an operation that may raise. */
  datatype Result<+T, +E> = Success(value: T) | Failure(error: E)
}
