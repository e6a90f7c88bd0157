/** The two failure-carrying datatypes the other modules share. */
module Wrappers {

  datatype Option<+T> = None | Some(value: T)

  /** Usable with `:-`. */
  datatype Result<+T, +E> = Ok(value: T) | Err(error: E) {
    predicate IsFailure() {
      Err?
    }

    function PropagateFailure<U>(): Result<U, E>
      requires Err?
    {
      Err(error)
    }

    function Extract(): T
      requires Ok?
    {
      value
    }
  }
}
