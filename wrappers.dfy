/** Small value wrappers shared by the task store and the signup form. */
module Wrappers {

  /** A value that may be absent (a missing or falsy JSON field). */
  datatype Option<+T> = None | Some(value: T) {

    /** The wrapped value, or `default` when absent (JavaScript's `x || default`). */
    function GetOr(default: T): T {
      match this
      case Some(v) => v
      case None => default
    }
  }

  /**
   * How an awaited server call settled: `Ok(body)` when the request resolved
   * (and, where a body is read, it was parsed), `Rejected` when the request
   * or the parse threw.
   */
  datatype Reply<+T> = Ok(body: T) | Rejected
}
