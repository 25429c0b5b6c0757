/** Optional values and error-carrying results shared by the needs-info model. */
module Wrappers {

  /** A value that may be absent; Python's `None` is `None` here. */
  datatype Option<+T> = None | Some(value: T)

  /** Either a computed value or the error the computation would raise. */
  datatype Result<+R, +E> = Success(value: R) | Failure(error: E)
}
