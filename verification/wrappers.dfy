/** Option and Result values used for the repository's "nothing created"
    signal and for its not-found failure. */
module Wrappers {

  /** Python's `T | None`. */
  datatype Option<+T> = None | Some(value: T)

  /** A successful value, or the error a Python operation would raise. */
  datatype Result<+R, +E> = Success(value: R) | Failure(error: E)
}
