/** Option and Result: the error paths of the modelled code (a raised exception,
    a missing value) become values of these types instead of preconditions. */
module Wrappers {

  datatype Option<+T> = None | Some(value: T)

  datatype Result<+T, +E> = Success(value: T) | Failure(error: E)

  /** A check that passes or fails with an error, for code that raises but returns nothing. */
  datatype Outcome<+E> = Pass | Fail(error: E)
}
