/** Option and Result values standing for Python's `None` and `raise ValueError`,
    and for the thrown `Error` of the TypeScript clients. */
module Wrappers {

  datatype Option<+T> = None | Some(value: T) {
    function GetOr(default: T): T {
      match this
      case Some(v) => v
      case None => default
    }
  }

  /** `Err(msg)` is a raised exception (Python `ValueError`, a thrown JS `Error`)
      carrying its message. */
  datatype Result<+T> = Ok(value: T) | Err(msg: string)
}
