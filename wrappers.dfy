/** The optional value used for JavaScript's `null`/`undefined` throughout the model. */
module Wrappers {
  datatype Option<+T> = None | Some(value: T)
}
