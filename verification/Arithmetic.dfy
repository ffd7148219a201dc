/** Facts about products. */
module Arithmetic {

  lemma MulMonotone(a: nat, b: nat, c: nat)
    requires a <= b
    ensures a * c <= b * c
  {
  }

  lemma OneMore(count: int, size: nat)
    ensures (count + 1) * size == count * size + size
  {
  }
}
