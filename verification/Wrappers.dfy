/** Optional values, used for the loosely-typed record fields and for lookups. */
module Wrappers {

  /** A value that may be absent: a dictionary key that is missing, or a nullable column. */
  datatype Option<+T> = None | Some(value: T) {

    /** The carried value, or `default` when absent (Python's `d.get(key, default)`). */
    function GetOr(default: T): T {
      match this
      case Some(v) => v
      case None => default
    }
  }
}
