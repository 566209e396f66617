/** Failure-carrying wrappers used throughout the model.
    `Option` stands for a Java reference that may be `null`;
    `Result` stands for a call that either returns or throws a checked exception. */
module Results {

  /** A value that may be absent (a Java `null`). */
  datatype Option<+T> = None | Some(value: T)

  /** The outcome of a call that may throw: its value, or the error it raised. */
  datatype Result<+T, +E> = Ok(value: T) | Err(error: E)
}
