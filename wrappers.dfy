/** Optional values and results with an error case, used wherever the source
    reads a field that may be absent or runs code that may throw. */
module Wrappers {

  datatype Option<+T> = None | Some(value: T)

  datatype Result<+T, +E> = Success(value: T) | Failure(error: E)
}
