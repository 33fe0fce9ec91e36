/** Absence of a value, as Python's `None`. */
module Wrappers {

  datatype Option<+T> = None | Some(value: T)

}
