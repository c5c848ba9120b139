/** Failure-carrying values used where the source returns None or raises. */
module Wrappers {

  /** A value that may be absent: Python's Optional. */
  datatype Option<+T> = None | Some(value: T)
}
