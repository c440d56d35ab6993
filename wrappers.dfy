/** Option, Result and Outcome: the shapes of `T | null`, of a value-or-throw and of a
    void-or-throw in the stores modelled here. */
module Wrappers {

  datatype Option<+T> = None | Some(value: T) {
    /** The value, or `default` when absent: the model of `x || default` on a field that is
        either present or undefined. */
    function GetOr(default: T): T {
      match this
      case Some(v) => v
      case None => default
    }
  }

  /** An operation that returns a value or throws an error. */
  datatype Result<+T, +E> = Success(value: T) | Failure(error: E)

  /** An operation that returns nothing or throws an error. */
  datatype Outcome<+E> = Pass | Fail(error: E)
}
