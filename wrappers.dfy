/** Optional values and results, the counterparts of Rust's `Option` and `Result`. */
module Wrappers {
  datatype Option<T> = None | Some(value: T)

  datatype Result<T, E> = Success(value: T) | Failure(error: E)

  /** A `Result<(), E>`: either the operation went through or it failed with `error`. */
  datatype Outcome<E> = Pass | Fail(error: E)
}
