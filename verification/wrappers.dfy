/** Failure-compatible wrappers used throughout the model. */
module Wrappers {

  /** A value that may be absent; `None` stands for JavaScript's `null`. */
  datatype Option<+T> = None | Some(value: T)

  /** The outcome of a computation that may raise an exception. */
  datatype Result<+T, +E> = Success(value: T) | Failure(error: E)
}
