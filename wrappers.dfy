/** Failure-compatible wrappers shared by the model: an optional value and a pass/fail outcome. */
module Wrappers {

  /** Python's `None`-or-value. */
  datatype Option<+T> = None | Some(value: T)

  /** The result of an operation that either returns normally or raises `error`. */
  datatype Outcome<+E> = Pass | Fail(error: E)
}
