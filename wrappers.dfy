/** Failure-carrying values standing in for Java's exceptions and empty Optionals. */
module Wrappers {

  datatype Option<+T> = None | Some(value: T)

  datatype Result<+T, +E> = Success(value: T) | Failure(error: E) {
    /** Forgets the value, keeping only whether the computation threw and with what. */
    function ToOutcome(): Outcome<E>
    {
      match this
      case Success(_) => Pass
      case Failure(e) => Fail(e)
    }
  }

  /** The outcome of a statement that either completes or throws. */
  datatype Outcome<+E> = Pass | Fail(error: E)
}
