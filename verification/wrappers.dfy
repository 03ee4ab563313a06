/** Failure-carrying datatypes shared by the whole model: `Option` stands for
    Python's `None`-or-value returns, `Result` for a return that may instead
    raise an exception. */
module Wrappers {

  datatype Option<+T> = None | Some(value: T) {

    /** Returns the value in `Some`, or `default` for `None`. */
    function GetOr(default: T): T {
      match this
      case Some(v) => v
      case None => default
    }
  }

  datatype Result<+T, +E> = Ok(value: T) | Err(error: E)
}
