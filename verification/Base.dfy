/** Types and small facts shared by every module of the model. */
module Base {
  type byte = b: int | 0 <= b < 256

  datatype Option<+T> = None | Some(value: T)

  function Min(a: int, b: int): int {
    if a <= b then a else b
  }

  function Max(a: int, b: int): int {
    if a >= b then a else b
  }

  /** Two's-complement reading of the low `2 * half` values of `n`: Go's conversion to a signed integer. */
  function Wrap(n: int, half: int): int
    requires half > 0
  {
    (n + half) % (2 * half) - half
  }
}
