/** Small failure-carrying datatypes shared by the other modules. */
module Wrappers {

  /** Python's `None` or a value. */
  datatype Option<+T> = None | Some(value: T) {
    function GetOr(default: T): T {
      match this
      case Some(v) => v
      case None => default
    }
  }

  /** The value of a call, or the message of the exception it raised. */
  datatype Result<+R> = Ok(value: R) | Err(error: string)
}
