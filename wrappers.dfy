/** The optional value shared by the other modules. */
module Wrappers {

  /** A value that may be absent (a pattern that found no match). */
  datatype Option<+T> = None | Some(value: T)
}
