/** Optional values, shared by every module of the model. */
module Wrappers {

  datatype Option<+T> = None | Some(value: T)

  /** A key of a Python result dictionary: missing, present with value None, or present. */
  datatype Slot<+T> = Absent | Null | Present(value: T)

  function Max(a: real, b: real): (m: real)
    ensures m >= a && m >= b && (m == a || m == b)
  {
    if a >= b then a else b
  }
}
