/** An optional value: a Python name that may still be unbound, or a match that may fail. */
module Wrappers {
  datatype Option<+T> = None | Some(value: T)
}
