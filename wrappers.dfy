/** Failure-carrying return values shared by the modules of this model. */
module Wrappers {

  /** A value that may be absent. */
  datatype Option<T> = None | Some(value: T)

  /** The outcome of a fallible operation: a value, or the error it propagates. */
  datatype Result<T, E> = Ok(value: T) | Err(error: E)
}
