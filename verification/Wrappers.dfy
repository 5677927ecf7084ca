/** A value that may be missing: Go's nil results, absent rows and refused input. */
module Wrappers {

  datatype Option<T> = None | Some(value: T)
}
