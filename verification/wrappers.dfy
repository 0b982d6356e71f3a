/** The optional value and the value-or-error shared by the other modules. */
module Wrappers {

  /** A value that may be absent: an unset environment variable, a directory
      that could not be opened, an out-parameter that was never written. */
  datatype Option<+T> = None | Some(value: T)

  /** A value or an error. */
  datatype Result<+R, +E> = Success(value: R) | Failure(error: E)
}
