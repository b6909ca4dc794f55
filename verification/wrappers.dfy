/** Optional values: a field that may be absent on the wire, a parse that may
    yield NaN, a gateway call that may throw instead of returning a record. */
module Wrappers {

  datatype Option<+T> = None | Some(value: T) {

    /** The wrapped value, or `default` when there is none. */
    function GetOr(default: T): T {
      match this
      case Some(v) => v
      case None => default
    }
  }
}
