/** Result types shared by every component.  */
module Wrappers {

  datatype Option<+T> = None | Some(value: T)

  /** A computation that either yields a value or is refused with a reason. */
  datatype Result<+T, +E> = Ok(value: T) | Err(error: E) {
    predicate IsFailure() {
      Err?
    }

    function PropagateFailure<U>(): Result<U, E>
      requires Err?
    {
      Err(error)
    }

    function Extract(): T
      requires Ok?
    {
      value
    }
  }
}
