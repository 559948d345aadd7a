/** Return values and raised exceptions of the modelled Python calls. */
module Wrappers {

  datatype Option<+T> = None | Some(value: T)

  /** The value a call returns, or the exception it raises. */
  datatype Result<+T, +E> = Success(value: T) | Failure(error: E)

  /** A call that returns nothing, or raises. */
  datatype Outcome<+E> = Pass | Fail(error: E)
}
