/** A value that may be missing: Python's `None`, a dict key that is absent. */
module Wrappers {

  datatype Option<+T> = None | Some(value: T)
}
