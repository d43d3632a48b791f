/** The optional value used wherever Python returns `None` or a match object. */
module Wrappers {
  datatype Option<+T> = None | Some(value: T)
}
