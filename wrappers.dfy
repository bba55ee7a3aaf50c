/** Optional values and results with an error, as the services use them. */
module Wrappers {

  /** A value that may be absent (Python's `None`). */
  datatype Option<+T> = None | Some(value: T)
  {
    /** The value, or `default` when absent. */
    function GetOr(default: T): T
    {
      match this
      case Some(v) => v
      case None => default
    }
  }

  /** The outcome of a service call: the created or updated record, or the error it raises. */
  datatype Result<+T, +E> = Ok(value: T) | Err(error: E)
}
