/** The value wrapper shared by every module: Python's `T | None`, SQL's nullable column. */
module Wrappers {
  datatype Option<+T> = None | Some(value: T) {
    /** The wrapped value, or `default` when there is none. */
    function GetOr(default: T): T {
      match this
      case None => default
      case Some(v) => v
    }

    /** This value unless it is missing; the reading of `if x is not None: field = x`. */
    function Or(other: Option<T>): Option<T> {
      if Some? then this else other
    }
  }
}
