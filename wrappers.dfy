/** Option and Outcome, used across the stroke model. */
module Wrappers {

  /** A value that may be absent: JavaScript's `undefined` where the source can yield it. */
  datatype Option<+T> = None | Some(value: T)

  /** The outcome of a call that returns normally or throws. */
  datatype Outcome<+E> = Pass | Fail(error: E)
}
