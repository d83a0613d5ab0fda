/** Failure-compatible wrappers used across the model. */
module Wrappers {

  /** A value that may be absent (JavaScript's `undefined`, a missing entry). */
  datatype Option<+T> = None | Some(value: T)

  /** A computation that either succeeds or reports an error instead of throwing. */
  datatype Result<+R, +E> = Success(value: R) | Failure(error: E)
}
