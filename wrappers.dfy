/** The optional value used for nullable columns and partial parses. */
module Wrappers {
  datatype Option<+T> = None | Some(value: T)
}
