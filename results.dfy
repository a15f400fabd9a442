/** Optional values and the outcome of an operation that may raise. */
module Results {

  /** Python's `Optional[T]`: `None` or a present value. */
  datatype Option<+T> = None | Some(value: T)

  /** A value, or the text of the exception that the Python code would raise instead. */
  datatype Result<+T> = Ok(value: T) | Err(error: string)
}
