/** The usual Some/None datatype; `None` plays the role of Python's `None`. */
module Wrappers {
  datatype Option<+T> = None | Some(value: T)
}
