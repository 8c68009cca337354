/** Failure-carrying result types shared by every module of the connector. */
module Results {

  /** A value that may be absent: a failed parse, a missing attribute. */
  datatype Option<+T> = None | Some(value: T)

  /** The (value, error) pair a Go function returns, with exactly one side set. */
  datatype Result<+T, +E> = Ok(value: T) | Err(error: E)

  /** A Go function that returns only an error. */
  datatype Outcome<+E> = Pass | Fail(error: E)
}
