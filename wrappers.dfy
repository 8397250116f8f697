/** The optional value used for Go's (value, error) and (value, ok) pairs. */
module Wrappers {
  datatype Option<+T> = None | Some(value: T)
}
