/** Option and Result values shared by the modules of this model. */
module Wrappers {

  datatype Option<+T> = None | Some(value: T)

  datatype Result<+R, +E> = Success(value: R) | Failure(error: E)

  /** The outcome of a handler that returns nothing but may throw. */
  datatype Outcome<+E> = Pass | Fail(error: E)
}
