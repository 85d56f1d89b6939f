/** Failure-carrying values shared by every module of the model. */
module Wrappers {

  datatype Option<+T> = None | Some(value: T)

  /** A value or an error, for Go's `(T, error)` pairs. */
  datatype Result<+T, +E> = Ok(value: T) | Err(error: E)

  /**
   * How a Go function ended: it returned a value, or it panicked at run
   * time (a nil dereference, an index out of range, a failed type
   * assertion). A panic is an outcome of the model, not an excluded input.
   */
  datatype Exec<+T> = Returns(value: T) | Panics
}
