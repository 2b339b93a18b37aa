/** Result types shared by the models. */
module Common {

  datatype Option<+T> = None | Some(value: T) {
    function GetOr(default: T): T {
      match this
      case None => default
      case Some(v) => v
    }
  }

  /** How a step of a running process ends: with a value, with an exception the
      caller may handle, or with the process gone. Works with `:-`. */
  datatype Attempt<+T> = Ok(value: T) | Raised | Stopped {
    predicate IsFailure() { !Ok? }

    function PropagateFailure<U>(): Attempt<U>
      requires IsFailure()
    {
      if Raised? then Raised else Stopped
    }

    function Extract(): T
      requires Ok?
    {
      value
    }
  }

  /** How a request ends: with a value, or refused with a code and no change. */
  datatype Result<+T, +E> = Success(value: T) | Failure(error: E)
}
