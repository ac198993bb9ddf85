/** Residues, for the counters that wrap around. */
module Arithmetic {

  lemma MultipleAtLeast(q: int, m: nat)
    requires q >= 1
    ensures q * m >= m
  {
    assert q * m == m + (q - 1) * m;
  }

  lemma ResidueUnique(x: int, q: int, r: int, m: nat)
    requires 0 <= r < m && x == q * m + r
    ensures x % m == r && x / m == q
  {
    var d := x / m - q;
    assert x == m * (x / m) + x % m;
    assert d * m == m * (x / m) - q * m;
    if d >= 1 { MultipleAtLeast(d, m); }
    if d <= -1 { MultipleAtLeast(-d, m); }
  }

  lemma QuotientBelow(a: nat, b: nat, m: nat)
    requires m > 0 && a < b * m
    ensures a / m < b
  {
    var q := a / m;
    assert a == m * q + a % m;
    assert (b - q) * m == b * m - q * m;
  }

  /** Two counts have the same residue exactly when they are a whole number of periods apart. */
  lemma ResidueEqual(a: nat, b: nat, m: nat)
    requires m > 0 && b <= a
    ensures a % m == b % m <==> (a - b) % m == 0
  {
    var qa, qb, qd := a / m, b / m, (a - b) / m;
    assert a == m * qa + a % m && b == m * qb + b % m && a - b == m * qd + (a - b) % m;
    if a % m == b % m {
      assert a - b == (qa - qb) * m + 0;
      ResidueUnique(a - b, qa - qb, 0, m);
    }
    if (a - b) % m == 0 {
      assert a == (qd + qb) * m + b % m;
      ResidueUnique(a, qd + qb, b % m, m);
    }
  }
}
