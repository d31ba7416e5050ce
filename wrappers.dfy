/** Option and Result datatypes for the optional values and error statuses the core returns. */
module Wrappers {

  /** An optional value: std::optional in the source. */
  datatype Option<+T> = None | Some(value: T)

  /** A value or an error message: base::StatusOr in the source. */
  datatype Result<+T, +E> = Success(value: T) | Failure(error: E)
}
