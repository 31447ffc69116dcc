/** Carriers for the operations of the service that can raise an error. */
module Results {

  /** A value, or the error that was raised instead of producing it. */
  datatype Result<+T, +E> = Success(value: T) | Failure(error: E)

  /** Completion of an operation that produces no value. */
  datatype Outcome<+E> = Pass | Fail(error: E)
}
