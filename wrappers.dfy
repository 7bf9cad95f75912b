/** Option and Result, the two failure-carrying wrappers the model uses. */
module Wrappers {

  /** A value that may be JavaScript's `undefined`. */
  datatype Option<+T> = None | Some(value: T)

  /** The outcome of a step that can reject (a failed request, a rejected promise). */
  datatype Result<+R, +E> = Success(value: R) | Failure(error: E)
}
