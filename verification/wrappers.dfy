/** Failure-compatible result types used throughout the model: Python's
    exceptions become `Err` values carrying a description of what was raised. */
module Wrappers {

  datatype Option<+T> = None | Some(value: T)

  datatype Result<+T, +E> = Ok(value: T) | Err(error: E) {

    predicate IsFailure() {
      Err?
    }

    function PropagateFailure<U>(): Result<U, E>
      requires Err?
    {
      Err(error)
    }

    function Extract(): T
      requires Ok?
    {
      value
    }
  }

  /** A check that either passes or fails with an error, carrying no value. */
  datatype Outcome<+E> = Pass | Fail(error: E)
}
