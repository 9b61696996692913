/** Failure-compatible wrappers shared by both handlers. */
module Wrappers {

  /** An optional value: an environment variable that may be unset, a key that may be absent. */
  datatype Option<+T> = None | Some(value: T) {

    /** The value, or `default` when there is none (Python's `dict.get(key, default)`). */
    function GetOr(default: T): T
    {
      match this
      case Some(v) => v
      case None => default
    }
  }

  /** The outcome of a call into a collaborator: a value, or the text of the fault it raised. */
  datatype Result<+R, +E> = Ok(value: R) | Err(error: E)
}
