/** Integer minimum and maximum, as Python's built-in `min` and `max` on two numbers. */
module Numbers {

  /** The smaller of two numbers: no larger than either, and one of them. */
  function Min(x: int, y: int): (r: int)
    ensures r <= x && r <= y && (r == x || r == y)
  {
    if x <= y then x else y
  }

  /** The larger of two numbers: no smaller than either, and one of them. */
  function Max(x: int, y: int): (r: int)
    ensures r >= x && r >= y && (r == x || r == y)
  {
    if x <= y then y else x
  }

  function Min3(x: int, y: int, z: int): int {
    Min(Min(x, y), z)
  }
}
