/** Wrappers shared by the other modules. */
module Wrappers {

  /** A value that may be absent: a lookup that found nothing, a JSON key the body left out. */
  datatype Option<+T> = None | Some(value: T) {
    function GetOr(default: T): T {
      match this
      case Some(v) => v
      case None => default
    }
  }

  /** The outcome of a check that either passes or fails with an error value. */
  datatype Outcome<+E> = Pass | Fail(error: E)
}
