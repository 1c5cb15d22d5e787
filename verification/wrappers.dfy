/** Failure-carrying result types used across the model.
    A Go `(value, error)` pair becomes a `Result`; a nilable Go value becomes an `Option`. */
module Wrappers {

  datatype Option<+T> = None | Some(value: T) {
    function GetOr(default: T): T {
      match this
      case Some(v) => v
      case None => default
    }
  }

  datatype Result<+R, +E> = Ok(value: R) | Err(error: E) {
    /** The error, or None for success (Go's `err == nil`). */
    function ErrorOrNone(): Option<E> {
      match this
      case Ok(_) => None
      case Err(e) => Some(e)
    }

    /** The value, or a default standing for Go's zero value on failure. */
    function GetOr(default: R): R {
      match this
      case Ok(v) => v
      case Err(_) => default
    }
  }

  function Min(a: int, b: int): int {
    if a <= b then a else b
  }
}
