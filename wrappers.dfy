/** Failure-compatible wrappers shared by the whole model. */
module Wrappers {

  /** A value or its absence; `None` stands for a Java `null`. */
  datatype Option<+T> = None | Some(value: T) {
    function GetOr(default: T): T {
      match this
      case Some(v) => v
      case None => default
    }
  }

  /** The outcome of an operation that can fail with an error message. */
  datatype Result<+R> = Ok(value: R) | Err(message: string)
}
