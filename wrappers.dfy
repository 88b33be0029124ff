/** Option and Result, the failure-carrying values used by the response model. */
module Wrappers {

  /** Swift's `T?`: either absent or present. */
  datatype Option<+T> = None | Some(value: T)

  /** The outcome of a Swift call that may `throw`: a value or the error thrown. */
  datatype Result<+R, +E> = Success(value: R) | Failure(error: E)
}
