/** Optional values and success/failure replies shared by every module of the model. */
module Wrappers {

  /** A value that may be missing: JavaScript `null`/`undefined`, Python `None`. */
  datatype Option<+T> = None | Some(value: T) {

    /** The carried value, or `default` when there is none. */
    function GetOr(default: T): T {
      match this
      case Some(v) => v
      case None => default
    }
  }

  /** The reply of a call into the hosted database or the auth provider: the rows it
      returned, or the message of the error object it returned. */
  datatype Reply<+T> = Ok(rows: T) | Err(message: string)
}
