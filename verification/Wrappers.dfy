/** The conventional optional value, used where the program returns a "found" flag, a nil or an error. */
module Wrappers {
  datatype Option<+T> = None | Some(value: T)
}
