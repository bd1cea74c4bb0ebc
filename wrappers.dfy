/** Option and Result, used for Ruby's nil and for raised errors. */
module Wrappers {

  datatype Option<+T> = None | Some(value: T) {

    /** The value, or `default` when there is none (Ruby's `x || default`). */
    function GetOr(default: T): T {
      match this
      case Some(v) => v
      case None => default
    }
  }

  /** `Failure(message)` stands for a raised `StandardError` carrying `message`. */
  datatype Result<+T, +E> = Success(value: T) | Failure(error: E)
}
