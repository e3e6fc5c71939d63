/** A value or the error that was raised in its place. */
module Results {
  datatype Result<T, E> = Ok(value: T) | Err(error: E)
}
