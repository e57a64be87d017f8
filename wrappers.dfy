/** Optional values and results with an error, for the outcomes that Python
    signals with `None`-like absence or with an exception. */
module Wrappers {

  datatype Option<+T> = None | Some(value: T)

  datatype Result<+T, +E> = Success(value: T) | Failure(error: E)
}
