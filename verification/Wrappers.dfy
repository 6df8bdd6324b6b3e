/** The two result types shared by every module. */
module Wrappers {

  /** A value that may be absent: Go's nil pointers and `v, ok` pairs. */
  datatype Option<+T> = None | Some(value: T)

  /** A value or an error: Go's `(T, error)` pairs. */
  datatype Result<+T, +E> = Success(value: T) | Failure(error: E)
}
