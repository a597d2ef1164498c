/** Shared result type. */
module Wrappers {
  datatype Option<+T> = None | Some(value: T)
}
