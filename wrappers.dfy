/** Result and Option types shared by every module of the model.
    `Option` stands for Go's nil-able pointers and slices, `Result` for a
    `(value, error)` return pair. */
module Wrappers {

  datatype Option<+T> = None | Some(value: T) {
    function GetOr(default: T): T {
      match this
      case Some(v) => v
      case None => default
    }
  }

  datatype Result<+T, +E> = Ok(value: T) | Err(error: E)

  /** A byte, as in Go's `[]byte`. */
  newtype byte = b: int | 0 <= b < 256
}
