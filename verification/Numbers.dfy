/** Go's `min` and `max` on integers, and time. */
module Numbers {

  /** Times and durations are integers, in nanoseconds. */
  type Time = int

  function Min(a: int, b: int): int { if a < b then a else b }

  function Max(a: int, b: int): int { if a > b then a else b }
}
