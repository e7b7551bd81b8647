/** The conventional optional value, for input pieces that may fail to parse. */
module Wrappers {
  datatype Option<T> = None | Some(value: T)
}
