/** The optional value used wherever the program reads something that may be
    missing: an absent snapshot, a failed fetch, an unset environment
    variable, or a `parseInt` that yields NaN. */
module Wrappers {

  datatype Option<+T> = None | Some(value: T) {

    /** The wrapped value, or `default` when there is none. */
    function GetOr(default: T): T
    {
      match this
      case Some(v) => v
      case None => default
    }
  }
}
