/** The optional value used for nullable references and absent attributes. */
module Wrappers {
  datatype Option<+T> = None | Some(value: T)
}
