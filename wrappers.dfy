/** Failure-compatible wrappers used across the model. */
module Wrappers {

  /** An optional value: JavaScript's `undefined`/absent key is `None`. */
  datatype Option<+T> = None | Some(value: T) {
    function GetOr(default: T): T {
      match this
      case Some(v) => v
      case None => default
    }
  }

  /** Either a value or an error message. */
  datatype Result<+T> = Ok(value: T) | Err(message: string)
}
