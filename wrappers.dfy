/** Option and Result: the model's stand-ins for JavaScript's `undefined`/`null`/NaN and for thrown errors. */
module Wrappers {

  /** A value that may be absent: `None` models `undefined`, `null` or a failed parse. */
  datatype Option<+T> = None | Some(value: T) {
    function GetOr(default: T): T {
      match this
      case Some(v) => v
      case None => default
    }
  }

  /** The outcome of an operation that either returns a value or throws an error. */
  datatype Result<+T, +E> = Ok(value: T) | Err(error: E)
}
