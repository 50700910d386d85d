module Results {
  /** A value, or the source's thrown NumericError. */
  datatype Result<T> = Ok(value: T) | NumericError

  datatype Option<T> = None | Some(value: T)
}
