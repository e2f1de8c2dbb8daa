/** What every part of the model may use. */
module Basics {
  datatype Option<+T> = None | Some(value: T)

  function Min(a: int, b: int): int {
    if a <= b then a else b
  }

  lemma Multiples(e: int, d: nat)
    requires d > 0
    ensures e >= 1 ==> e * d >= d
    ensures e <= -1 ==> e * d + d <= 0
  {
  }

  lemma DivisionIsUnique(k: nat, d: nat, q: nat, r: nat)
    requires r < d && k == r + q * d
    ensures q == k / d && r == k % d
  {
    var p := k / d;
    assert k == p * d + k % d;
    assert (p - q) * d == r - k % d;
    Multiples(p - q, d);
  }
}
