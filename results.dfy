/** Failure-carrying values used across the model: `Option` for a value that may be
    absent, `Result` for an operation that either succeeds or yields an error. */
module Results {

  datatype Option<+T> = None | Some(value: T)

  /** The Rust `Result<T, E>`: the value of a successful call or the error it reports. */
  datatype Result<+T, +E> = Ok(value: T) | Err(error: E)
}
