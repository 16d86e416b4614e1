/** A missing value (a pandas NaN cell, a Python None) or a present one. */
module Wrappers {

  datatype Option<+T> = None | Some(value: T) {

    /** The value, or the given default when missing. */
    function GetOr(default: T): T {
      match this
      case Some(v) => v
      case None => default
    }
  }
}
