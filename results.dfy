/** Failure-carrying return values used by the pipeline stages. */
module Results {

  datatype Option<+T> = None | Some(value: T)

  /** The value of a stage that either succeeds or raises. */
  datatype Result<+T, +E> = Ok(value: T) | Err(error: E)

  /** The value of a stage that only changes state, or raises. */
  datatype Outcome<+E> = Pass | Fail(error: E)
}
