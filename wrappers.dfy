/** Option and Result, the failure-carrying values used throughout the model.
    `Result` stands for a Python call that either returns a value or raises
    an exception whose message is the `error` string. */
module Wrappers {

  datatype Option<+T> = None | Some(value: T)

  /** Python's truth value of an optional string: present and non-empty. */
  predicate Truthy(s: Option<string>) {
    s.Some? && s.value != ""
  }

  datatype Result<+T, +E> = Success(value: T) | Failure(error: E) {
    predicate IsFailure() { Failure? }

    function PropagateFailure<U>(): Result<U, E>
      requires Failure?
    {
      Failure(error)
    }

    function Extract(): T
      requires Success?
    {
      value
    }
  }
}
