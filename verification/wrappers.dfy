/** Optional and failure-carrying values, standing in for Swift's `Optional`
    and `Result` (and for a `throws` that the caller turns into `try?`). */
module Wrappers {

  datatype Option<+T> = None | Some(value: T)

  datatype Result<+R, +E> = Success(value: R) | Failure(error: E)
}
