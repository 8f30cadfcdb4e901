/** Optional values and call results shared by every module. */
module Options {

  /** A value that may be missing: null and undefined of the program. */
  datatype Option<+T> = None | Some(value: T) {
    function GetOr(default: T): T {
      match this
      case Some(v) => v
      case None => default
    }
  }

  /** The value a call returned, or the error it threw. */
  datatype Result<+T, +E> = Ok(value: T) | Err(error: E)
}
