/** Optional values: the model's stand-in for the C code's NULL pointers. */
module Wrappers {
  datatype Option<T> = None | Some(value: T)
}
