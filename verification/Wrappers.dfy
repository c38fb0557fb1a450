/** Values that may be absent (a nil pointer, a nil error, a scan that fails) and the errors themselves. */
module Wrappers {
  datatype Option<+T> = None | Some(value: T)

  datatype Result<+T, +E> = Success(value: T) | Failure(error: E)

  /** An error value: which one it is, and what it says when asked whether it is a `net.Error` and a timeout. */
  datatype Error = Error(id: nat, isNetError: bool, isTimeout: bool)
}
