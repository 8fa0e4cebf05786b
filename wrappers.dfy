/** The optional value used for lookups that may find nothing and for calls that may raise. */
module Wrappers {

  datatype Option<+T> = None | Some(value: T)
}
