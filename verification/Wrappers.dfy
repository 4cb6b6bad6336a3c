/** The result of an operation that may have none. */
module Wrappers {
  datatype Option<+T> = None | Some(value: T)
}
