/** Optional values and error results shared by the other modules. */
module Wrappers {

  /** A parameter that the caller may leave out (Python's `None`). */
  datatype Option<T> = None | Some(value: T)

  /** The outcome of an operation that can raise an exception. */
  datatype Result<T, E> = Ok(value: T) | Err(error: E)
}
