/** Optional values and the success-or-error outcome of a request handler. */
module Common {

  /** A value that may be missing (SQL NULL, an absent header or query parameter). */
  datatype Option<T> = None | Some(value: T)

  /** A handler's outcome: the success payload, or the error it answers with. */
  datatype Result<T, E> = Ok(value: T) | Err(error: E)
}
