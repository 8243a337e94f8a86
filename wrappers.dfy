/** Failure-carrying values shared by the weather tool handlers. */
module Wrappers {

  /** A value that may be absent (a JSON key that is missing, a parse that fails). */
  datatype Option<T> = None | Some(value: T)

  /** A value or the error that prevented computing it. */
  datatype Result<T, E> = Ok(value: T) | Err(error: E)
}
