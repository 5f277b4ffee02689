/** The two shapes a Go `(value, error)` pair takes in this model. */
module Wrappers {

  /** A step that yields a value or fails without saying why. */
  datatype Option<+T> = None | Some(value: T)

  /** A step that yields a value or an error, as a Go `(T, error)` pair
      where exactly one of the two is meaningful. */
  datatype Result<+R, +E> = Success(value: R) | Failure(error: E)
}
