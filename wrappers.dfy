/** Optional values: JavaScript's `undefined`, `null` and `NaN` where the server
    can produce or receive them. */
module Wrappers {

  datatype Option<+T> = None | Some(value: T) {

    /** The value, or a default when there is none (JavaScript's `x || d` on
        a value that is either present or undefined). */
    function GetOr(default: T): T {
      match this
      case Some(v) => v
      case None => default
    }
  }
}
