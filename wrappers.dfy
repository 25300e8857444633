/** Optional values and success-or-failure results, used in place of C#'s nullable
    values and exceptions. */
module Wrappers {

  /** A value that may be absent (a C# `Nullable<T>` or a null reference). */
  datatype Option<+T> = None | Some(value: T)

  /** The outcome of an operation that either returns a value or raises an error. */
  datatype Result<+T, +E> = Ok(value: T) | Err(error: E)
}
