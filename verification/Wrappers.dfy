/** The optional value used where the Go code returns a value with an `ok` flag or an error. */
module Wrappers {
  datatype Option<+T> = None | Some(value: T)
}
