/** Failure-compatible wrappers shared by the whole model. */
module Wrappers {

  /** A value that may be absent (JavaScript's `undefined`). */
  datatype Option<+T> = None | Some(value: T)

  /** The outcome of a stage that may abort the run. */
  datatype Result<+T, +E> = Success(value: T) | Failure(error: E)
}
