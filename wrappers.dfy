/** Option, Result and Outcome: the stand-ins for Python's None and for
    raised exceptions throughout the model. */
module Wrappers {

  datatype Option<+T> = None | Some(value: T)

  /** A computation that either returns a value or raises an error. */
  datatype Result<+R, +E> = Success(value: R) | Failure(error: E)

  /** A computation that returns nothing or raises an error. */
  datatype Outcome<+E> = Pass | Fail(error: E)
}
