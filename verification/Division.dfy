/**
 Products, quotients and remainders kept behind functions, so that the other proofs need no non-linear
 arithmetic.
 */
module Division {
  function Times(a: nat, b: nat): nat { a * b }

  function Remainder(a: nat, b: nat): (r: nat)
    requires b != 0
    ensures r < b
  {
    a % b
  }

  function Quotient(a: nat, b: nat): (q: nat)
    requires b != 0
    ensures q <= a
  {
    assert b * (a / b) + a % b == a;
    QuotientSmaller(a, b, a / b, a % b);
    a / b
  }

  lemma {:induction false} FactorSmaller(b: nat, q: int)
    requires b != 0
    ensures q >= 0 ==> b * q >= q
  {
    if b > 1 {
      FactorSmaller(b - 1, q);
      assert b * q == (b - 1) * q + q;
    }
  }

  lemma QuotientSmaller(a: nat, b: nat, q: int, r: int)
    requires b != 0 && b * q + r == a && r >= 0
    ensures q <= a
  {
    FactorSmaller(b, q);
  }

  lemma Multiple(k: int, d: int)
    requires d > 0
    ensures k >= 1 ==> k * d >= d
    ensures k <= -1 ==> k * d <= -d
  {
  }

  /** A remainder is what is left of any multiple, once it is below the divisor. */
  lemma RemainderUnique(x: int, d: int, q: int, r: int)
    requires 0 <= r < d && x == q * d + r
    ensures x % d == r && x / d == q
  {
    var k := x / d - q;
    assert x == d * (x / d) + x % d;
    assert k * d == r - x % d;
    Multiple(k, d);
  }

  /** A common factor passes through a remainder. */
  lemma ScaledRemainder(p: nat, u: nat, k: nat)
    requires p > 0 && k > 0 && Times(p, k) > 0
    ensures Remainder(Times(p, u), Times(p, k)) == Times(p, Remainder(u, k))
  {
    var q, r := u / k, u % k;
    assert u == k * q + r;
    Multiple(k - r, p);
    assert p * r < p * k by { assert p * k - p * r == (k - r) * p; }
    assert p * u == q * (p * k) + p * r;
    RemainderUnique(p * u, p * k, q, p * r);
  }

  lemma BelowDivisor(x: nat, d: nat)
    requires x < d
    ensures Remainder(x, d) == x && Quotient(x, d) == 0
  {
  }

  lemma AtLeastDivisor(x: nat, d: nat)
    requires 0 < d <= x
    ensures Quotient(x, d) != 0
  {
    assert d * (x / d) + x % d == x;
  }
}
