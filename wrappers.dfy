/** Option, the value-or-nothing type used for Python's `None` results. */
module Wrappers {
  datatype Option<+T> = None | Some(value: T)
}
