/** The optional value used for request-body fields that may be absent. */
module Wrappers {

  datatype Option<+T> = None | Some(value: T)
}
