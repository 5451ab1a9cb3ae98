/** The optional-value type shared by the model. */
module Wrappers {

  /** An optional value: the model's stand-in for a value that may be `None`. */
  datatype Option<+T> = None | Some(value: T)
}
