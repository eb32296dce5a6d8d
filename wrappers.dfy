/** The optional value used for a read of the filesystem that may fail. */
module Wrappers {

  datatype Option<+T> = None | Some(value: T)
}
