/** Optional values and fallible results, the Dafny counterparts of Swift's
    `Optional` and of a throwing call. */
module Wrappers {

  datatype Option<+T> = None | Some(value: T)

  datatype Result<+T, +E> = Success(value: T) | Failure(error: E)
}
