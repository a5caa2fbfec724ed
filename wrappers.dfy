/** Optional values and results, the model's stand-ins for Kotlin's nullable
    types and for the exceptions the service layer throws. */
module Wrappers {

  datatype Option<+T> = None | Some(value: T)

  datatype Result<+R, +E> = Success(value: R) | Failure(error: E)
}
