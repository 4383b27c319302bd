/** The optional value used wherever the worker meets `undefined`: a missing
    parameter, a failed configuration lookup, a search response without results. */
module Wrappers {

  datatype Option<+T> = None | Some(value: T) {

    /** The value, or `default` when there is none (the `??` operator). */
    function GetOr(default: T): T {
      match this
      case Some(v) => v
      case None => default
    }
  }
}
