/** Small failure-carrying datatypes shared by the other modules. */
module Wrappers {

  /** A value that may be absent: an unset form field, a missing date. */
  datatype Option<+T> = None | Some(value: T)

  /** The verdict of a check that either passes or fails with one error. */
  datatype Outcome<+E> = Pass | Fail(error: E)
}
