/**
 * The optional value used where the program returns `None` or an empty
 * frame, and `Min`, the integer minimum used for selection sizes and
 * window lengths.
 */
module Wrappers {

  datatype Option<+T> = None | Some(value: T)

  function Min(a: int, b: int): int
  {
    if a <= b then a else b
  }
}
