/** Optional values and construction results, shared by the other modules. */
module Wrappers {

  /** An optional value: the model's stand-in for a nullable or absent result. */
  datatype Option<+T> = None | Some(value: T)

  /** A value or the error a constructor throws instead of returning one. */
  datatype Result<+R, +E> = Success(value: R) | Failure(error: E)
}
