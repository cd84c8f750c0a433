/** Option, Result and Outcome values standing for Python's None and for raised exceptions. */
module Wrappers {

  datatype Option<+T> = None | Some(value: T)

  datatype Result<+T, +E> = Ok(value: T) | Err(error: E)

  /** The result of a step that either completes or raises. */
  datatype Outcome<+E> = Pass | Fail(error: E)
}
