/** Results that may be missing: where the source returns no object, or raises an exception. */
module Wrappers {
  datatype Option<+T> = None | Some(value: T)
}
