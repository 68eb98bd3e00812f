/** The optional value used throughout: JavaScript's `null` or `undefined` beside an ordinary value. */
module Wrappers {

  datatype Option<+T> = None | Some(value: T)

  function Min(a: int, b: int): int {
    if a < b then a else b
  }
}
