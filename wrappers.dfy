/** Optional values (a null pointer, an absent map entry) and success/failure results. */
module Wrappers {

  datatype Option<+T> = None | Some(value: T)

  /** `LogicalResult` / `FailureOr<T>`: either a value or a failure with a reason. */
  datatype Result<+T> = Success(value: T) | Failure(reason: string)
}
