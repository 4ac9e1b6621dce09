/** Constants and small facts shared by the components. */
module Basics {
  const MAX_INT64: int := 0x7FFF_FFFF_FFFF_FFFF

  /** Durations are in nanoseconds. */
  const MILLISECOND: int := 1_000_000
  const SECOND: int := 1_000_000_000

  function Min(a: int, b: int): int {
    if a <= b then a else b
  }

  lemma Associative<T>(a: seq<T>, b: seq<T>, c: seq<T>)
    ensures a + b + c == a + (b + c)
  {
  }
}
