/** Option, used for C pointers that may be null and for a lookup that may fail. */
module Wrappers {
  datatype Option<+T> = None | Some(value: T)
}
