/** Failure-carrying results shared by all modules. */
module Wrappers {

  datatype Option<+T> = None | Some(value: T)

  /** The source returns `Result<T, String>` almost everywhere; the message is not modelled. */
  datatype Result<+T> = Success(value: T) | Failure {
    predicate IsFailure() {
      Failure?
    }

    function PropagateFailure<U>(): Result<U>
      requires Failure?
    {
      Failure
    }

    function Extract(): T
      requires Success?
    {
      value
    }
  }
}
