/** Small failure-compatible wrapper shared by every module of the model. */
module Wrappers {

  /** A value that may be absent: Python's `None` or a real value. */
  datatype Option<+T> = None | Some(value: T)
}
