/** Optional values and results, used for the nullable and optional fields of
    the session store and for the outcome of reading persisted storage. */
module Wrappers {

  /** A value that may be absent: `null` or `undefined` on the store's side. */
  datatype Option<+T> = None | Some(value: T) {

    /** The carried value, or `default` when there is none. */
    function GetOr(default: T): (r: T)
      ensures Some? ==> r == value
      ensures None? ==> r == default
    {
      match this
      case Some(v) => v
      case None => default
    }
  }

  /** Either a value or the reason none could be produced. */
  datatype Result<+R, +E> = Ok(value: R) | Err(error: E)
}
