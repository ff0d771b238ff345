/** The optional value used for absent attributes and failed casts. */
module Wrappers {
  datatype Option<+T> = None | Some(value: T)
}
