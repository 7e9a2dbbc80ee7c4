/** The optional value that the query surface and the string helpers return. */
module Wrappers {
  datatype Option<+T> = None | Some(value: T)
}
