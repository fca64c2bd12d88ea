/** Failure-compatible helpers shared by every handler model. */
module Wrappers {

  /** An optional value: a JavaScript `undefined` or a missing query-string key is `None`. */
  datatype Option<+T> = None | Some(value: T) {
    function GetOr(default: T): T {
      match this
      case Some(v) => v
      case None => default
    }
  }

  /** The outcome of an HTTP handler: a successful body, or an error status with its message. */
  datatype Outcome<+T> = Ok(value: T) | Fail(status: nat, message: string)
}
