/** Failure-compatible value types used by every other module. */
module Wrappers {

  /** A value that may be absent; stands for a nil pointer field. */
  datatype Option<+T> = None | Some(value: T)

  /** A returned value or an error, for Go's `(T, error)` results. */
  datatype Result<+T, +E> = Success(value: T) | Failure(error: E)

  /** A bare Go `error` result: nil (Pass) or an error value. */
  datatype Outcome<+E> = Pass | Fail(error: E)
}
