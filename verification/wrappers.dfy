/** Failure-compatible result types shared by the whole model. */
module Wrappers {

  /** An optional value: a dictionary lookup that may miss, a search that may find nothing. */
  datatype Option<+T> = None | Some(value: T)

  /** The outcome of a computation that can raise: a value, or the exception raised. */
  datatype Result<+T, +E> = Ok(value: T) | Err(error: E) {

    predicate IsFailure() {
      Err?
    }

    function PropagateFailure<U>(): Result<U, E>
      requires Err?
    {
      Err(error)
    }

    function Extract(): T
      requires Ok?
    {
      value
    }
  }
}
