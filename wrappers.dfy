/** Option, Result and Outcome values standing in for PHP's null returns and thrown exceptions. */
module Wrappers {

  datatype Option<+T> = None | Some(value: T) {
    function GetOr(default: T): T {
      match this
      case Some(v) => v
      case None => default
    }
  }

  /** A value, or the message of the exception that the PHP code would have thrown. */
  datatype Result<+T> = Ok(value: T) | Err(message: string)

  /** Completion of an operation without a value: normal return or a thrown error. */
  datatype Outcome = Pass | Fail(message: string)
}
