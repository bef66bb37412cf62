/** Option and Result, the two ways the model reports a missing value or an error. */
module Wrappers {

  /** An optional value (`std::optional` in the type checker). */
  datatype Option<+T> = None | Some(value: T)

  /** A value or an error status (`absl::StatusOr`). */
  datatype Result<+T, +E> = Success(value: T) | Failure(error: E)
}
