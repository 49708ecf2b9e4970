/** Shorthands on natural numbers. */
module Arith {
  function Max(a: int, b: int): int { if a < b then b else a }

  function Min(a: int, b: int): int { if a < b then a else b }

  /** Subtraction that stops at zero. */
  function Minus(a: nat, b: nat): nat { if a < b then 0 else a - b }
}
