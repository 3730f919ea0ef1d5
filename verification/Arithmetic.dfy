/** Facts about products and remainders that several modules need. */
module Arithmetic {
  function Min(a: int, b: int): int {
    if a < b then a else b
  }

  lemma MulMono(a: nat, b: nat, c: nat)
    requires a <= b
    ensures c * a <= c * b
  {
  }

  lemma MulNext(c: nat, a: nat)
    ensures c * (a + 1) == c * a + c
  {
  }

  lemma MulGe(a: nat, b: nat)
    requires 0 < b
    ensures a <= b * a && a <= a * b
  {
  }

  lemma Small(x: nat, n: nat)
    requires x < n
    ensures x % n == x
  {
  }
}
