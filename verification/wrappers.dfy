/** The optional-value datatype that stands in for the C code's NULL returns. */
module Wrappers {

  /** `None` plays the part of a NULL pointer result. */
  datatype Option<+T> = None | Some(value: T)
}
