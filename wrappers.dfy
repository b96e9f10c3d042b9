/** Option and outcome types shared by the modules of the model. */
module Wrappers {
  /** A value that may be absent (`None`, `null`, `undefined`). */
  datatype Option<+T> = None | Some(value: T)

  /** The outcome of an operation that either returns normally or raises. */
  datatype Outcome<+E> = Pass | Fail(error: E)
}
