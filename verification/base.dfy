/** Small failure-carrying datatypes shared by the round engine. */
module Base {

  /** An optional value (a Rust `Option`). */
  datatype Option<+T> = None | Some(value: T) {

    /** The wrapped value, or `default` when there is none. */
    function GetOr(default: T): T {
      match this
      case Some(v) => v
      case None => default
    }
  }

  /** A value or an error (a Rust `Result`). */
  datatype Result<+T, +E> = Success(value: T) | Failure(error: E)
}
