/** Failure-carrying datatypes shared by the registry model. */
module Wrappers {

  /** A value that may be absent: a nil `*string` or a nil error. */
  datatype Option<+T> = None | Some(value: T)

  /** Either a successful value or an error, standing for Go's `(T, error)` pairs. */
  datatype Result<+T, +E> = Ok(value: T) | Err(error: E)
}
