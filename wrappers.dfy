/** Option and Result, the two failure-carrying datatypes the model uses. */
module Wrappers {

  /** `None` stands for a JavaScript `undefined` (an absent header, a missing argument). */
  datatype Option<+T> = None | Some(value: T) {

    /** The value, or `default` when absent. */
    function GetOr(default: T): T {
      match this
      case Some(v) => v
      case None => default
    }
  }

  /** A value, or the error a JavaScript function would have thrown. */
  datatype Result<+R, +E> = Success(value: R) | Failure(error: E)
}
