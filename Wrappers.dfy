/** Failure-compatible result types shared by the model. */
module Wrappers {

  /** A value that may be absent: a JavaScript `undefined`, a Python `None`,
      or a number that is not finite. */
  datatype Option<+T> = None | Some(value: T) {
    function GetOr(default: T): T {
      match this
      case Some(v) => v
      case None => default
    }
  }

  /** The outcome of an operation that can raise an error. */
  datatype Result<+T, +E> = Ok(value: T) | Err(error: E)
}
