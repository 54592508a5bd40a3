/** The optional value returned by the decoders that partner the encoders. */
module Wrappers {
  datatype Option<+T> = None | Some(value: T)
}
