/** The optional-value wrapper used for every fetch that can fail. */
module Wrappers {

  /** `None` is a failed fetch (`get_price` returning `None` after a caught exception). */
  datatype Option<+T> = None | Some(value: T) {

    /** The wrapped value, or `default` for a failed fetch. */
    function GetOr(default: T): (r: T)
      ensures Some? ==> r == value
      ensures None? ==> r == default
    {
      match this
      case Some(v) => v
      case None => default
    }
  }
}
