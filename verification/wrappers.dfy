/** Absence as a first-class value: a landmark the tracker did not see this frame. */
module Wrappers {

  /** `None` is Python's `None`; `Some(v)` is a detected value. */
  datatype Option<+T> = None | Some(value: T)
}
