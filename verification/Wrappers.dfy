/** The result types shared by the modules of this project. */
module Wrappers {

  /** A value that may be absent: the source's `undefined`, `null` and `None`. */
  datatype Option<+T> = None | Some(value: T)
}
