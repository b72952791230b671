/** An optional value, and a value or the error that replaced it. */
module Wrappers {

  datatype Option<+T> = None | Some(value: T)

  /** The outcome of a Python call: the value it returned, or the exception it raised. */
  datatype Result<+T, +E> = Ok(value: T) | Err(error: E)
}
