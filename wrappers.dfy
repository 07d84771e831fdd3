/** Optional values (PHP's null) and results (PHP's exceptions) used across the model. */
module Wrappers {

  /** A value that may be absent; `None` stands for PHP's `null` (or `false` where a lookup fails). */
  datatype Option<+T> = None | Some(value: T)

  /** The outcome of an operation that may throw: `Failure` carries the exception. */
  datatype Result<+T, +E> = Success(value: T) | Failure(error: E)
}
