/** A value or none: the null pointers of the original. */
module Wrappers {
  datatype Option<T> = None | Some(value: T)
}
