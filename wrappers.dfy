/** Optional values and success/failure outcomes shared by the other modules. */
module Wrappers {

  /** A value that may be absent: JavaScript's `undefined` / `null`. */
  datatype Option<+T> = None | Some(value: T)

  /** The outcome of an operation that returns nothing on success (a `Promise<void>`). */
  datatype Outcome<+E> = Pass | Fail(error: E)
}
