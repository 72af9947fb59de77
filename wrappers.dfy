/** The usual optional value, standing in for a null pointer or an absent result. */
module Wrappers {
  datatype Option<+T> = None | Some(value: T)
}
