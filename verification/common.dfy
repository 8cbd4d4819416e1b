/** Failure-carrying wrappers shared by every module of the model. */
module Common {

  /** A value that may be absent: a Go `nil` pointer, a SQL "no rows". */
  datatype Option<+T> = None | Some(value: T)

  /** The outcome of an operation that may fail with an error of type `E`. */
  datatype Result<+T, +E> = Ok(value: T) | Err(error: E)

  /** An SQL statement that the database refused or could not run. The
      model does not distinguish causes: only that the statement failed. */
  datatype DbError = DbError
}
