/**
 * Failure-carrying datatypes shared by every service of the model.
 *
 * The C# services signal "absent" with `null` and failures with exceptions
 * (`KeyNotFoundException`, `InvalidOperationException`, the `OverflowException`
 * of `Math.Abs`, a `NullReferenceException` on a missing navigation).
 * Here `null` becomes `None` and a thrown exception becomes `Err`.
 */
module Wrappers {

  datatype Option<+T> = None | Some(value: T) {
    function GetOr(default: T): T {
      match this
      case Some(v) => v
      case None => default
    }
  }

  /** The exceptions the modelled services throw, with their messages. */
  datatype Exception =
    | KeyNotFound(message: string)
    | InvalidOperation(message: string)
    | Overflow
    | NullReference

  datatype Result<+T> = Ok(value: T) | Err(error: Exception) {
    predicate IsFailure() {
      Err?
    }

    function PropagateFailure<U>(): Result<U>
      requires Err?
    {
      Err(error)
    }

    function Extract(): T
      requires Ok?
    {
      value
    }
  }

  /** C#'s `string.IsNullOrEmpty`. */
  predicate IsNullOrEmpty(s: Option<string>) {
    s.None? || |s.value| == 0
  }
}
