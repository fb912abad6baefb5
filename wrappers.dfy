/** Optional values and error-carrying results, shared by every module. */
module Wrappers {
  /** A value that may be absent; `None` stands for JavaScript's `undefined` result. */
  datatype Option<T> = None | Some(value: T)

  /** The outcome of code that may throw: `Err` carries the thrown message. */
  datatype Result<T, E> = Ok(value: T) | Err(error: E)
}
