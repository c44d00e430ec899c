/** Helper datatypes: `Option` for Java references that may be
    null, `Result` for operations that either produce a value or raise an exception. */
module Wrappers {

  /** A value that may be absent; `None` stands for Java's `null`. */
  datatype Option<+T> = None | Some(value: T) {

    /** The held value, or `default` when there is none. */
    function GetOr(default: T): (r: T) {
      match this
      case Some(v) => v
      case None => default
    }
  }

  /** Either a computed value or the error that the source would throw. */
  datatype Result<+R, +E> = Success(value: R) | Failure(error: E)
}
