/** Optional values, used wherever the Python code returns or tests for None. */
module Wrappers {

  datatype Option<+T> = None | Some(value: T) {

    /** The value inside Some, or the given default for None. */
    function GetOr(default: T): T
    {
      match this
      case Some(v) => v
      case None => default
    }
  }
}
