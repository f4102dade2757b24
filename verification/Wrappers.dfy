/** The failure-compatible value shared by the other modules. */
module Wrappers {

  /** A value that may be absent (a missing table entry, a failed lookup). */
  datatype Option<+T> = None | Some(value: T)
}
