/** Optional values and fallible results shared by every module of the model. */
module Wrappers {

  /** A value that may be absent (`undefined` in the TypeScript code, `None` in Rust). */
  datatype Option<+T> = None | Some(value: T) {
    function GetOr(default: T): T {
      match this
      case Some(v) => v
      case None => default
    }
  }

  /** The outcome of an operation that may throw (TypeScript) or return `Err` (Rust). */
  datatype Result<+T, +E> = Ok(value: T) | Err(error: E)
}
