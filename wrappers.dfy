/** Optional values: `None` stands for JavaScript's `null`/`undefined` results and for a
    library call that threw and whose exception the caller turns into `null`. */
module Wrappers {

  datatype Option<+T> = None | Some(value: T) {

    /** The value held, or `default` when there is none (JavaScript's `x ?? default`). */
    function GetOr(default: T): T {
      match this
      case Some(v) => v
      case None => default
    }
  }
}
