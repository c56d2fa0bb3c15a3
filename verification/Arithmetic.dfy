/** Facts about products that several components need. */
module Arithmetic {

  lemma Multiply(x: int, y: int, k: int)
    requires 0 <= k
    ensures x <= y ==> x * k <= y * k && k * x <= k * y
  {
  }

  function PowerOfTwo(n: nat): (p: nat)
    ensures p > 0
  {
    if n == 0 then 1 else 2 * PowerOfTwo(n - 1)
  }
}
