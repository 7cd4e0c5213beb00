/** Failure-carrying wrappers used throughout the model. */
module Wrappers {

  /** A value that may be absent (JSON.parse that throws, a missing callback result). */
  datatype Option<+T> = None | Some(value: T)

  /** The outcome of an operation that either returns a value or rejects with an error. */
  datatype Result<+R, +E> = Success(value: R) | Failure(error: E)
}
