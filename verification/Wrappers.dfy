/** The two result types the other modules share. */
module Wrappers {

  /** Rust's Option. */
  datatype Option<+T> = None | Some(value: T) {
    function GetOr(default: T): T {
      match this
      case Some(v) => v
      case None => default
    }
  }

  /** Rust's Result. */
  datatype Result<+T, +E> = Ok(value: T) | Err(error: E)
}
