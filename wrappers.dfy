/** The optional value used across the model for JavaScript's `undefined` and for lookups that may fail. */
module Wrappers {
  datatype Option<+T> = None | Some(value: T)
}
