/** An optional value: used where the source either has a value or fails (a
    missing dictionary key) or takes an optional argument. */
module Wrappers {
  datatype Option<T> = None | Some(value: T)
}
