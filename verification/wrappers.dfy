/** `Option` and `Result`, shared by the other modules. */
module Wrappers {

  /** A value that may be absent: an optional request field, a `$fail` message. */
  datatype Option<+T> = None | Some(value: T)

  /** The outcome of a validation: the validated value, or the errors found. */
  datatype Result<+T, +E> = Ok(value: T) | Err(error: E)
}
