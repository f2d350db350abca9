/**
 The shifts of the expression engine (src/cmpl_internal.c:156-157), and when exchanging the operands
 makes no difference to them.
 */
module Shifts {
  import opened Division
  import opened Numerals

  function Power2(n: nat): (p: nat)
    ensures p > 0
  {
    if n == 0 then 1 else 2 * Power2(n - 1)
  }

  // C leaves a shift by 64 or more undefined; here the count is taken modulo 64.

  function ShiftLeft(a: U64, b: U64): U64 { Remainder(Times(a, Power2(b % 64)), TWO_64) }

  function ShiftRight(a: U64, b: U64): U64 { Quotient(a, Power2(b % 64)) }

  lemma Doubling(p: nat, q: nat)
    ensures Times(2 * p, q) == 2 * Times(p, q)
  {
    assert 2 * (p * q) == (2 * p) * q;
  }

  lemma {:induction false} PowerAdd(m: nat, n: nat)
    ensures Power2(m + n) == Times(Power2(m), Power2(n))
  {
    if m > 0 {
      PowerAdd(m - 1, n);
      Doubling(Power2(m - 1), Power2(n));
    }
  }

  lemma {:induction false} PowerAbove(n: nat)
    ensures Power2(n) > n
  {
    if n > 0 { PowerAbove(n - 1); }
  }

  lemma SmallPowers()
    ensures Power2(0) == 1 && Power2(1) == 2 && Power2(2) == 4 && Power2(3) == 8 && Power2(4) == 16 && Power2(5) == 32
    ensures Power2(6) == 64 && Power2(7) == 128 && Power2(8) == 256 && Power2(9) == 512 && Power2(10) == 1024
    ensures Power2(11) == 2048 && Power2(64) == TWO_64
  {
    assert Power2(11) == 2048;
    PowerAdd(11, 11);
    PowerAdd(22, 22);
    PowerAdd(44, 11);
    PowerAdd(55, 9);
  }

  // ---- left shifts --------------------------------------------------------------------------

  /** x shifted by x + d and x + d shifted by x agree, with the common factor of both taken out. */
  predicate Reduced(x: nat, d: nat)
    requires x + d < 64
  {
    Remainder(Times(x, Power2(d)), Power2(64 - x)) == Remainder(x + d, Power2(64 - x))
  }

  lemma CountBelow64(a: U64, b: U64)
    requires b < 64
    ensures ShiftLeft(a, b) == Remainder(Times(a, Power2(b)), TWO_64) && ShiftRight(a, b) == Quotient(a, Power2(b))
  {
    assert b % 64 == b;
  }

  lemma LeftReduced(x: nat, d: nat)
    requires x + d < 64
    ensures ShiftLeft(x, x + d) == ShiftLeft(x + d, x) <==> Reduced(x, d)
  {
    hide Remainder, Times, ShiftLeft;
    SmallPowers();
    PowerAdd(x, d);
    PowerAdd(x, 64 - x);
    CountBelow64(x, x + d);
    CountBelow64(x + d, x);
    var p, k := Power2(x), Power2(64 - x);
    var u := Times(x, Power2(d));
    Exchange(x, p, Power2(d));
    Commute(x + d, p);
    ScaledRemainder(p, u, k);
    ScaledRemainder(p, x + d, k);
    Cancel(p, Remainder(u, k), Remainder(x + d, k));
  }

  lemma Commute(a: nat, b: nat)
    ensures Times(a, b) == Times(b, a)
  {
  }

  lemma Exchange(x: nat, p: nat, q: nat)
    ensures Times(x, Times(p, q)) == Times(p, Times(x, q))
  {
    assert x * (p * q) == p * (x * q);
  }

  lemma Cancel(p: nat, a: nat, b: nat)
    requires p > 0
    ensures Times(p, a) == Times(p, b) <==> a == b
  {
    if a != b { Multiple(a - b, p); assert p * a - p * b == (a - b) * p; }
  }

  /** From six apart on, one side is a multiple of 64 and the other is not. */
  lemma FarApart(x: nat, d: nat)
    requires 6 <= d && x + d < 64
    ensures !Reduced(x, d)
  {
    hide Remainder;
    var m, n := Times(x, Power2(d - 6)), Power2(58 - x);
    Sixty4(x, d);
    PowerAbove(58 - x);
    assert Power2(64 - x) == Times(64, n) && Times(64, n) > x + d;
    ScaledRemainder(64, m, n);
    BelowDivisor(x + d, Power2(64 - x));
    assert Times(64, Remainder(m, n)) != x + d;
  }

  /** The factor of 64 in both. */
  lemma Sixty4(x: nat, d: nat)
    requires 6 <= d && x + d < 64
    ensures Times(x, Power2(d)) == Times(64, Times(x, Power2(d - 6)))
    ensures Power2(64 - x) == Times(64, Power2(58 - x))
  {
    SmallPowers();
    PowerAdd(6, d - 6);
    PowerAdd(6, 58 - x);
    Exchange(x, 64, Power2(d - 6));
  }

  lemma Doubled(x: nat, d: nat)
    requires 1 <= d <= 5
    ensures Times(x, Power2(d)) ==
            if d == 1 then 2 * x else if d == 2 then 4 * x else if d == 3 then 8 * x
            else if d == 4 then 16 * x else 32 * x
  {
    SmallPowers();
  }

  lemma Room(x: nat)
    requires x <= 53
    ensures Power2(64 - x) >= 2048
  {
    SmallPowers();
    PowerAdd(11, 53 - x);
  }

  /** Below, no bit is lost up to x = 53. */
  lemma NearEnough(x: nat, d: nat)
    requires 1 <= d <= 5 && x <= 53
    ensures Reduced(x, d) <==> x == 1 && d == 1
  {
    hide Remainder, Times;
    Doubled(x, d);
    Room(x);
    BelowDivisor(Times(x, Power2(d)), Power2(64 - x));
    BelowDivisor(x + d, Power2(64 - x));
  }

  /** No distance up to n makes x exchangeable modulo m. */
  predicate NoneAgrees(x: nat, n: nat, m: nat)
    requires m > 0
  {
    n == 0 || (Remainder(Times(x, Power2(n)), m) != Remainder(x + n, m) && NoneAgrees(x, n - 1, m))
  }

  /** The last few are checked modulus by modulus. */
  lemma EndTable()
    ensures NoneAgrees(54, 5, 1024) && NoneAgrees(55, 5, 512) && NoneAgrees(56, 5, 256)
    ensures NoneAgrees(57, 5, 128) && NoneAgrees(58, 5, 64) && NoneAgrees(59, 4, 32)
    ensures NoneAgrees(60, 3, 16) && NoneAgrees(61, 2, 8) && NoneAgrees(62, 1, 4)
  {
  }

  lemma {:induction false} FromTable(x: nat, d: nat, n: nat, m: nat)
    requires m > 0 && NoneAgrees(x, n, m) && 1 <= d <= n
    ensures Remainder(Times(x, Power2(d)), m) != Remainder(x + d, m)
  {
    if d < n { FromTable(x, d, n - 1, m); }
  }

  lemma NearTheEnd(x: nat, d: nat)
    requires 1 <= d <= 5 && 54 <= x && x + d < 64
    ensures !Reduced(x, d)
  {
    hide Times, Remainder;
    SmallPowers();
    EndTable();
    FromTable(x, d, if x <= 58 then 5 else 63 - x, Power2(64 - x));
  }

  /** Of two different counts, only 1 and 2 may be exchanged under a left shift. */
  lemma LeftExchange(x: nat, y: nat)
    requires x < y < 64
    ensures ShiftLeft(x, y) == ShiftLeft(y, x) <==> x == 1 && y == 2
  {
    LeftReduced(x, y - x);
    if y - x >= 6 { FarApart(x, y - x); }
    else if x <= 53 { NearEnough(x, y - x); }
    else { NearTheEnd(x, y - x); }
  }

  // ---- right shifts -------------------------------------------------------------------------

  /** Under a right shift, two different counts may be exchanged exactly if both results are 0. */
  lemma RightExchange(x: nat, y: nat)
    requires x < y < 64
    ensures ShiftRight(x, y) == ShiftRight(y, x) <==> y < Power2(x)
  {
    hide Quotient, ShiftRight;
    CountBelow64(x, y);
    CountBelow64(y, x);
    PowerAbove(y);
    BelowDivisor(x, Power2(y));
    if y < Power2(x) { BelowDivisor(y, Power2(x)); } else { AtLeastDivisor(y, Power2(x)); }
  }
}
