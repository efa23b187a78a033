/** Optional values and failing computations used across the model. */
module Wrappers {

  datatype Option<T> = None | Some(value: T)

  /** A computation that either yields a value or fails with the message of the
      exception the endpoint would throw. */
  datatype Result<T> = Success(value: T) | Failure(error: string)
}
