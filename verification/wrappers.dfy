/** Failure-carrying results used across the model: Go's `(value, error)`
    pairs and optional outcomes. */
module Wrappers {

  datatype Option<+T> = None | Some(value: T)

  datatype Result<+R, +E> = Success(value: R) | Failure(error: E)
}
