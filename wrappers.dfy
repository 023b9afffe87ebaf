/** Failure-compatible wrappers shared by every module: `undefined`/`null` results become
    `None`, and a thrown JavaScript error becomes a `Failure` carrying its message. */
module Wrappers {

  datatype Option<+T> = None | Some(value: T)

  datatype Result<+T> = Success(value: T) | Failure(error: string) {

    predicate IsFailure() {
      Failure?
    }

    function PropagateFailure<U>(): Result<U>
      requires Failure?
    {
      Failure(error)
    }

    function Extract(): T
      requires Success?
    {
      value
    }
  }

  /** The message of the `TypeError` that `Object.keys` and `Object.entries` throw on null or undefined. */
  const NotAnObject := "Cannot convert undefined or null to object"
}
