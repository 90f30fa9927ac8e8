/** Failure-compatible wrappers shared by every module of the model. */
module Wrappers {

  /** Python's `None` versus a present value. */
  datatype Option<+T> = None | Some(value: T) {

    /** The value, or `default` when absent (Python's `x if x is not None else default`). */
    function GetOr(default: T): T {
      match this
      case Some(v) => v
      case None => default
    }
  }

  /** A value or a structured error outcome (the source's `{"error": ...}` dictionaries). */
  datatype Result<+R, +E> = Success(value: R) | Failure(error: E)
}
