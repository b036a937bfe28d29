/** Small shared datatypes: an optional value and a result with an error. */
module Common {

  /** A value that may be absent (PHP `null`, a JavaScript falsy or missing field). */
  datatype Option<+T> = None | Some(value: T) {
    function GetOr(default: T): T {
      match this
      case Some(v) => v
      case None => default
    }
  }

  /** An outcome that is either a value or an error the source raises. */
  datatype Result<+T, +E> = Ok(value: T) | Err(error: E)
}
