/** Failure-carrying datatypes shared by the icon and colour modules. */
module Wrappers {

  /** A value that may be absent: JavaScript's `undefined`/`null` on one side, a value on the other. */
  datatype Option<+T> = None | Some(value: T) {

    /** The value, or `default` when absent (JavaScript's `value ?? default`). */
    function GetOr(default: T): T {
      match this
      case Some(v) => v
      case None => default
    }
  }

  /** The outcome of an operation that either returns a value or throws an error. */
  datatype Result<+R, +E> = Success(value: R) | Failure(error: E)
}
