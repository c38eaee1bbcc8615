/** Failure-carrying values shared by the modules of the toolkit model. */
module Wrappers {

  /** A value that may be absent: an `undefined` field, a `NaN` parse, a null ref. */
  datatype Option<+T> = None | Some(value: T) {
    function GetOr(default: T): T {
      match this
      case Some(v) => v
      case None => default
    }
  }

  /** The outcome of an operation that can report a user-visible error. */
  datatype Result<+T, +E> = Ok(value: T) | Err(error: E)
}
