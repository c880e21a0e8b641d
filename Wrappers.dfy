/** The optional value used wherever the source has a nullable or failing result. */
module Wrappers {

  datatype Option<+T> = None | Some(value: T)
}
