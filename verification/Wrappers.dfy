/** A value that may be missing: NULL, a fault, or a call that does not return. */
module Wrappers {
  datatype Option<+T> = None | Some(value: T)
}
