/** The optional value used wherever the source has a nullable field or a missing form entry. */
module Wrappers {

  datatype Option<+T> = None | Some(value: T)
}
