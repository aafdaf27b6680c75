/** An optional value, used for the nullable pointers of the monitor. */
module Wrappers {
  datatype Option<+T> = None | Some(value: T)
}
