/** Option and Result, standing in for Python's `None` checks and exceptions. */
module Wrappers {

  datatype Option<+T> = None | Some(value: T)

  /** `Err` plays the part of a raised exception; `:-` propagates it as Python unwinds. */
  datatype Result<+T, +E> = Ok(value: T) | Err(error: E) {

    predicate IsFailure() {
      Err?
    }

    function PropagateFailure<U>(): Result<U, E>
      requires Err?
    {
      Err(error)
    }

    function Extract(): T
      requires Ok?
    {
      value
    }
  }
}
