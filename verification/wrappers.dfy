/** Failure-carrying values used wherever the source returns `null`, throws or
    reports an error instead of a result. */
module Wrappers {

  /** A value that may be absent (a JavaScript `undefined`/`null` or a missing property). */
  datatype Option<+T> = None | Some(value: T) {
    function GetOr(default: T): T {
      match this
      case Some(v) => v
      case None => default
    }
  }

  /** A successful result or an error message (a thrown `Error`). */
  datatype Result<+T> = Success(value: T) | Failure(error: string)
}
