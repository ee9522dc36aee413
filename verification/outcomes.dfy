/** Optional values and success/failure results shared by every module of the model. */
module Outcomes {

  /** A value that may be absent (JavaScript's `undefined`/`null` where the source checks for it). */
  datatype Option<+T> = None | Some(value: T)

  /** The outcome of an operation that can throw: its value, or the error it throws. */
  datatype Result<+T, +E> = Ok(value: T) | Err(error: E)
}
