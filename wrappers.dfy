/** Small shared helpers: an Option type and integer minimum / maximum. */
module Wrappers {

  /** `None` stands for JavaScript's `null` / `undefined`. */
  datatype Option<+T> = None | Some(value: T)

  function Min(x: int, y: int): int
  {
    if x <= y then x else y
  }

  function Max(x: int, y: int): int
  {
    if x >= y then x else y
  }
}
