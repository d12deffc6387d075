/** A value that may be missing, in place of nil pointers and error returns. */
module Wrappers {
  datatype Option<+T> = None | Some(value: T)
}
