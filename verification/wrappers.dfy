/** Failure-compatible helper types shared by the whole model. */
module Wrappers {

  /** A value that may be absent: a missing dictionary key or a `None`. */
  datatype Option<+T> = None | Some(value: T) {

    /** The value, or `default` when it is absent (Python's `d.get(k, default)`). */
    function GetOr(default: T): T {
      match this
      case Some(v) => v
      case None() => default
    }
  }

  function Min(a: int, b: int): int {
    if a <= b then a else b
  }
}
