/** Option and Result values shared by every module of the model. */
module Wrappers {

  datatype Option<+T> = None | Some(value: T) {
    function GetOr(default: T): T {
      match this
      case Some(v) => v
      case None => default
    }
  }

  /** The outcome of an operation that can fail with a message (a thrown
      exception or an HTTP error body in the system). */
  datatype Result<+T> = Ok(value: T) | Err(error: string)
}
