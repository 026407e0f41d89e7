/** Powers of two and the modulus facts that doubling a table rests on. */
module Arith {
  function Pow2(n: nat): (p: nat)
    ensures p > 0
  {
    if n == 0 then 1 else 2 * Pow2(n - 1)
  }

  lemma {:induction false} MulGap(a: nat, b: nat, d: nat)
    requires a < b
    ensures a * d + d <= b * d
  {
    assert b * d == (b - 1) * d + d;
    if a < b - 1 {
      MulGap(a, b - 1, d);
    }
  }

  /** A quotient and a remainder are determined by the division equation. */
  lemma DivModUnique(x: nat, d: nat, q: nat, r: nat)
    requires x == q * d + r && r < d
    ensures x / d == q && x % d == r
  {
    if x / d < q {
      MulGap(x / d, q, d);
    } else if x / d > q {
      MulGap(q, x / d, d);
    }
  }

  lemma DivMod(x: nat, d: nat)
    requires d > 0
    ensures x == x / d * d + x % d && x % d < d
  {}

  lemma TwiceTimes(q: nat, p: nat)
    ensures q * (2 * p) == 2 * q * p
  {}

  lemma NextMultiple(q: nat, p: nat)
    ensures (q + 1) * p == q * p + p
  {}

  /** Doubling the modulus leaves the remainder alone or adds the old modulus. */
  lemma ModDouble(x: nat, p: nat, d: nat)
    requires p > 0 && d == p + p
    ensures x % d % p == x % p
    ensures x % d == x % p || x % d == x % p + p
  {
    DivMod(x, d);
    TwiceTimes(x / d, p);
    ModHalf(x, p, 2 * (x / d), x % d);
  }

  lemma ModHalf(x: nat, p: nat, q: nat, r: nat)
    requires p > 0 && r < p + p && x == q * p + r
    ensures r % p == x % p && (r == x % p || r == x % p + p)
  {
    if r < p {
      DivModUnique(x, p, q, r);
      DivModUnique(r, p, 0, r);
    } else {
      NextMultiple(q, p);
      DivModUnique(x, p, q + 1, r - p);
      DivModUnique(r, p, 1, r - p);
    }
  }
}
