/** The optional value used for the output name that may be absent from the command line. */
module Wrappers {

  datatype Option<+T> = None | Some(value: T)
}
