/** Failure-carrying values used where the tracker either prints an error and
    returns, or lets an exception escape. */
module Results {

  /** A value that may be absent, e.g. the outcome of a parser. */
  datatype Option<+T> = None | Some(value: T)

  /** Either the new value of an operation or the reason it was refused. */
  datatype Result<+T, +E> = Success(value: T) | Failure(error: E)
}
