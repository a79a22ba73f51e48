/** Failure-compatible wrappers used across the model. */
module Wrappers {

  /** An optional value; stands for JavaScript's `undefined`-or-value. */
  datatype Option<+T> = None | Some(value: T)

  /** The outcome of an operation that can fail with an error of type E. */
  datatype Result<+R, +E> = Success(value: R) | Failure(error: E)
}
