/** `Option` and `Result`, shared by the modules of this model. */
module Wrappers {

  /** A value that may be absent: Python's `None`, JavaScript's `undefined`. */
  datatype Option<+T> = None | Some(value: T)

  /** The outcome of a step that may raise: a value, or the error it raised. */
  datatype Result<+T, +E> = Ok(value: T) | Err(error: E)
}
