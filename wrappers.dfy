/** The optional-value datatype used for timer handles and pending callbacks. */
module Wrappers {
  datatype Option<+T> = None | Some(value: T)
}
