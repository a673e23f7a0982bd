/** The result shape for the source's `null`, `undefined` and exceptions. */
module Wrappers {
  datatype Option<+T> = None | Some(value: T)
}
