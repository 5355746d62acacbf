/** Optional values and success/failure results, standing in for the client's
    `undefined`/`null` and for the exceptions its async operations throw. */
module Wrappers {

  datatype Option<+T> = None | Some(value: T)

  datatype Result<+R, +E> = Success(value: R) | Failure(error: E)
}
