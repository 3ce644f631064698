/** Failure-compatible wrappers used across the model. */
module Wrappers {

  /** An optional value: SQL NULL, an absent JSON field, a lookup that found nothing. */
  datatype Option<+T> = None | Some(value: T)

  /** A value or the error that replaced it. */
  datatype Result<+T, +E> = Success(value: T) | Failure(error: E)
}
