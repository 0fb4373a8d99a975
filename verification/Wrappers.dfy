/** Values that may be missing, as the source's `None` results are, and the larger of two numbers. */
module Wrappers {

  datatype Option<+T> = None | Some(value: T)

  function Max(a: int, b: int): int {
    if a < b then b else a
  }
}
