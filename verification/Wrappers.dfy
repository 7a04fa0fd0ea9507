/** A value that may be missing: a NULL column, a read without a reply, a search without a result. */
module Wrappers {
  datatype Option<+T> = None | Some(value: T)
}
