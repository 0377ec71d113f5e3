/** A value-or-error result, the model of Go's `(value, error)` return pairs. */
module Wrappers {

  datatype Result<+T, +E> = Success(value: T) | Failure(error: E)
}
