/** Facts about products, quotients and remainders that the verifier does not find by itself. */
module Arithmetic {

  lemma DivModOf(q: nat, r: nat, d: nat)
    requires r < d
    ensures (q * d + r) / d == q && (q * d + r) % d == r
  {
    var n := q * d + r;
    assert n == n / d * d + n % d;
    QuotientUnique(q, r, n / d, n % d, d);
  }

  lemma QuotientUnique(q: int, r: int, q': int, r': int, d: int)
    requires 0 <= r < d && 0 <= r' < d
    requires q * d + r == q' * d + r'
    ensures q == q' && r == r'
    decreases q < q'
  {
    assert (q - q') * d == r' - r;
    if q > q' {
      ProductMonotone(1, q - q', d);
    } else if q < q' {
      QuotientUnique(q', r', q, r, d);
    }
  }

  lemma DivMod(n: nat, d: nat) returns (q: nat, r: nat)
    requires d > 0
    ensures q == n / d && r == n % d && n == q * d + r && r < d
  {
    q, r := n / d, n % d;
  }

  lemma ProductMonotone(x: nat, y: nat, z: nat)
    requires x <= y
    ensures x * z <= y * z
  {
  }

  lemma ProductCancel(x: nat, y: nat, z: nat)
    requires x * z < y * z
    ensures x < y
  {
    if y <= x { ProductMonotone(y, x, z); }
  }

  lemma EuclideanMod(q: int, r: int, d: int)
    requires 0 <= r < d
    ensures (q * d + r) % d == r
  {
    var n := q * d + r;
    assert n == n / d * d + n % d;
    QuotientUnique(q, r, n / d, n % d, d);
  }
}
