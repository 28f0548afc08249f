/** The optional value used where the source either yields a value or has nothing to give. */
module Wrappers {

  datatype Option<+T> = None | Some(value: T)
}
