/** Units of time, in microseconds, and bounds of two numbers. */
module Quantities {

  const SECOND := 1_000_000
  const MINUTE := 60_000_000
  const DAY := 86_400_000_000

  function Min(a: int, b: int): int { if a < b then a else b }
  function Max(a: int, b: int): int { if a < b then b else a }
}
