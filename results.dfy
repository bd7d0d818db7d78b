/** Failure-carrying wrappers shared by every module of the model. */
module Results {

  /** A value that may be absent: a Go nil pointer or an unset optional field. */
  datatype Option<+T> = None | Some(value: T)

  /** A Go `(value, error)` pair in which exactly one side is meaningful. */
  datatype Result<+T, +E> = Ok(value: T) | Err(error: E)
}
