/** Option values: a JavaScript value that may be `null`/`undefined`, or a
    step (a parse, a property read) that may produce nothing. */
module Wrappers {

  datatype Option<+T> = None | Some(value: T) {

    /** The value, or `default` when there is none. */
    function GetOr(default: T): T {
      match this
      case Some(v) => v
      case None => default
    }
  }
}
