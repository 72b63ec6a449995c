/** Failure-compatible result type used for every operation of the engine that
    can throw. The error carries a short description of the failed check. */
module Wrappers {

  datatype Result<+T> = Ok(value: T) | Err(reason: string) {

    predicate IsFailure() {
      Err?
    }

    function PropagateFailure<U>(): Result<U>
      requires Err?
    {
      Err(reason)
    }

    function Extract(): T
      requires Ok?
    {
      value
    }
  }

  datatype Option<+T> = None | Some(value: T)
}
