/** Option and Result values shared by every module of the model. */
module Wrappers {

  /** A value that may be absent (Go's `nil` or the `ok == false` branch). */
  datatype Option<+T> = None | Some(value: T)

  /** A value or an error message (Go's `(T, error)` pair). */
  datatype Result<+T> = Success(value: T) | Failure(error: string)
}
