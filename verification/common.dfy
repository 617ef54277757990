/** Failure-carrying datatypes shared by the model. */
module Common {

  /** A value that may be missing: an unreadable image, a comparison that raised. */
  datatype Option<+T> = None | Some(value: T)

  /** The outcome of an operation that either succeeds or raises. */
  datatype Result<+T, +E> = Ok(value: T) | Err(error: E)
}
