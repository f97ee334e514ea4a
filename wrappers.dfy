/** The success-or-error result type used for Go's `(value, error)` returns. */
module Wrappers {

  datatype Result<+T, +E> = Ok(value: T) | Err(error: E)
}
