/** Failure-compatible wrappers shared by every module of the model. */
module Wrappers {

  /** A JavaScript value that may be `undefined` (or `null`). */
  datatype Option<T> = None | Some(value: T)

  /** The outcome of an operation whose source counterpart can throw. */
  datatype Result<T, E> = Ok(value: T) | Err(error: E)
}
