/** Facts about products, each stated once. */
module Arithmetic {
  lemma MulAssoc(a: int, b: int, c: int)
    ensures a * b * c == a * (b * c)
  {
  }

  lemma MulAdd(a: int, b: int, c: int)
    ensures (a + b) * c == a * c + b * c
  {
  }

  lemma MulMonotone(a: nat, b: nat, c: nat)
    requires a <= b
    ensures a * c <= b * c
  {
    MulAdd(b - a, a, c);
  }

  lemma MulOrder(a: nat, b: nat, c: nat)
    requires c > 0
    ensures a <= b <==> a * c <= b * c
  {
    if a <= b {
      MulMonotone(a, b, c);
    } else {
      MulAdd(a - b, b, c);
    }
  }
}
