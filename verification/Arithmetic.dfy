/** Arithmetic that several modules share. */
module Arithmetic {

  function Pow2(k: nat): (p: nat)
    ensures p > 0
  {
    if k == 0 then 1 else 2 * Pow2(k - 1)
  }

  ghost predicate IsPow2(n: nat) {
    exists k: nat :: n == Pow2(k)
  }

  lemma {:induction false} Pow2Between(a: nat, b: nat)
    ensures a < b ==> 2 * Pow2(a) <= Pow2(b)
    ensures b < a ==> 2 * Pow2(b) <= Pow2(a)
  {
    if a < b {
      if a < b - 1 { Pow2Between(a, b - 1); }
    } else if b < a {
      if b < a - 1 { Pow2Between(a - 1, b); }
    }
  }

  /** Integer division as C and BigInt do it, rounding toward zero. */
  function TruncDiv(x: int, w: int): int
    requires w > 0
  {
    if x >= 0 then x / w else -((-x) / w)
  }
}
