/** Optional values and success/failure results, used where the plugin reads
    possibly-missing fields or throws an error that a caller catches. */
module Wrappers {

  datatype Option<+T> = None | Some(value: T)

  datatype Result<+R, +E> = Success(value: R) | Failure(error: E)
}
