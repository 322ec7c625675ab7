/** Option and Result values standing in for the C code's NULL pointers and error returns. */
module Wrappers {

  /** A value that may be absent: `None` models a NULL pointer. */
  datatype Option<+T> = None | Some(value: T) {

    /** The wrapped value, or `default` when absent. */
    function GetOr(default: T): T {
      match this
      case Some(v) => v
      case None => default
    }
  }

  /** The outcome of a step that either yields a value or stops with a process exit code. */
  datatype Result<+T, +E> = Ok(value: T) | Err(error: E)
}
