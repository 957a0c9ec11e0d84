/** Values that may be missing: a Go pair of a value and a found flag or an error. */
module Wrappers {

  datatype Option<+T> = None | Some(value: T)
}
