/** Failure-compatible wrappers shared by the whole model: an optional value and
    a result that is either a value or one of the exceptions the generator raises. */
module Wrappers {

  datatype Option<+T> = None | Some(value: T) {
    function GetOr(default: T): T {
      match this
      case Some(v) => v
      case None => default
    }
  }

  /** The Python exception classes the modelled code raises (explicitly or
      through a built-in it calls). */
  datatype Error =
    | ValueError
    | NotImplementedError
    | TypeError
    | IndexError
    | ZeroDivisionError

  datatype Result<+T> = Ok(value: T) | Err(error: Error) {
    predicate IsFailure() {
      Err?
    }

    function PropagateFailure<U>(): Result<U>
      requires Err?
    {
      Err(error)
    }

    function Extract(): T
      requires Ok?
    {
      value
    }
  }
}
