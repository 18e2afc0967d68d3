/** What several modules share. */
module Common {
  datatype Option<+T> = None | Some(value: T)

  type Tid = nat

  function Pow2(n: nat): (p: nat)
    ensures p > 0
  {
    if n == 0 then 1 else 2 * Pow2(n - 1)
  }

  // Quotients and remainders.

  lemma DivModUnique(x: nat, d: nat, q: nat, r: nat)
    requires d > 0 && x == d * q + r && r < d
    ensures x / d == q && x % d == r
  {
    var q', r' := x / d, x % d;
    assert x == d * q' + r';
    if q < q' { MulSteps(d, q, q'); }
    if q' < q { MulSteps(d, q', q); }
  }

  lemma MulSteps(d: nat, a: nat, b: nat)
    requires a < b
    ensures d * a + d <= d * b
  {
    assert d * b == d * (a + 1) + d * (b - a - 1);
  }
}
