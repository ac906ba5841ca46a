/** The `Option` and `Result` datatypes shared by the model. */
module Wrappers {

  /** A value that may be missing: a JSON null, or a parse that failed. */
  datatype Option<+T> = None | Some(value: T)

  /** The outcome of an operation that either succeeds or raises an error. */
  datatype Result<+T, +E> = Success(value: T) | Failure(error: E)
}
