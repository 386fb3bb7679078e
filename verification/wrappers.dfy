/** Optional values and success/failure results shared by the dashboard model. */
module Wrappers {

  /** A value that may be absent: a null cell or an empty dropdown. */
  datatype Option<+T> = None | Some(value: T)

  /** The outcome of an operation that may raise instead of returning. */
  datatype Result<+T, +E> = Success(value: T) | Failure(error: E)
}
