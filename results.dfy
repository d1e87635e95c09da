/** Failure-carrying wrappers shared by the validator's modules. */
module Results {

  /** A value that may be absent, such as the bytes of a read that ran past the end of the file. */
  datatype Option<T> = None | Some(value: T)

  /** The outcome of an operation that either produces a value or fails with an error. */
  datatype Result<T, E> = Ok(value: T) | Err(error: E)
}
