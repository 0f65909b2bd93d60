/** Optional values and success-or-error results shared by every module of the storefront model. */
module Wrappers {

  /** A value that may be absent: JavaScript's `undefined`/`null` on one side, a value on the other. */
  datatype Option<T> = None | Some(value: T) {

    /** The carried value, or `default` when absent (JavaScript's `??`). */
    function GetOr(default: T): T
    {
      if Some? then value else default
    }
  }

  /** The outcome of an operation that either succeeds with a value or stops with a message. */
  datatype Result<T, E> = Ok(value: T) | Err(error: E)
}
