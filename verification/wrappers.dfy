/** Failure-carrying datatypes shared by the rest of the model. */
module Wrappers {

  /** An optional value: an absent key of the conversation state, an unset cache. */
  datatype Option<+T> = None | Some(value: T) {

    /** The value if present, otherwise `default` (Python's `dict.get(key, default)`). */
    function GetOr(default: T): T {
      match this
      case Some(v) => v
      case None => default
    }
  }

  /** What an external collaborator returns: a value, or the text of the
      exception it raised (`str(e)` in the source). */
  datatype Outcome<+T> = Ok(value: T) | Fail(error: string)

  /** A value or a typed error, for code that raises its own exceptions. */
  datatype Result<+T, +E> = Success(value: T) | Failure(error: E)
}
