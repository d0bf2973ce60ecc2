module Wrappers {
  /** A value that may be absent: a nil pointer, a missing cursor, an error return without a value. */
  datatype Option<+T> = None | Some(value: T)
}
