/** Results of operations that can raise, and optional values. */
module Outcomes {

  datatype Option<+T> = None | Some(value: T) {
    predicate IsFailure() {
      None?
    }

    function PropagateFailure<U>(): Option<U>
      requires None?
    {
      None
    }

    function Extract(): T
      requires Some?
    {
      value
    }
  }

  datatype Result<+T, +E> = Ok(value: T) | Err(error: E) {
    predicate IsFailure() {
      Err?
    }

    function PropagateFailure<U>(): Result<U, E>
      requires Err?
    {
      Err(error)
    }

    function Extract(): T
      requires Ok?
    {
      value
    }
  }

  function OrErr<T, E>(o: Option<T>, error: E): Result<T, E> {
    match o
    case None => Err(error)
    case Some(v) => Ok(v)
  }

  function Check<E>(condition: bool, error: E): Result<(), E> {
    if condition then Ok(()) else Err(error)
  }
}
