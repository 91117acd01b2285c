/** Optional values and handler results shared by every module of the model. */
module Wrappers {

  /** A value that may be absent (an `undefined` field or an empty lookup). */
  datatype Option<T> = None | Some(value: T) {
    function GetOr(default: T): T {
      match this
      case Some(v) => v
      case None => default
    }
  }

  /** What a request handler answers: a JSON body, or an HTTP error status. */
  datatype Result<T> = Ok(value: T) | Err(status: nat)
}
