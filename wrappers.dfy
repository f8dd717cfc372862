/** A value that may be absent: JavaScript's `null`/`undefined` for a DOM lookup or
    attribute that is not there. */
module Wrappers {
  datatype Option<+T> = None | Some(value: T) {
    /** The value, or `default` when absent (the fallback of a missing value). */
    function GetOr(default: T): T {
      match this
      case Some(v) => v
      case None => default
    }
  }
}
