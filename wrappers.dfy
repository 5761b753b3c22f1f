/** The usual optional value, used by the decoders that read a serialised result back. */
module Wrappers {

  datatype Option<+T> = None | Some(value: T)
}
