/** Optional values: the None/Some results that the source spells as `None` or a dict. */
module Wrappers {

  datatype Option<+T> = None | Some(value: T) {

    /** The value in Some, or the given default for None. */
    function GetOr(default: T): T {
      match this
      case Some(v) => v
      case None => default
    }
  }
}
