/**
 The bitwise operators of the expression engine (src/cmpl_internal.c:158-160).
 */
module BitOps {
  import opened Division
  import opened Numerals
  import opened Shifts

  function OnBits(op: char, x: bool, y: bool): bool {
    if op == '&' then x && y else if op == '|' then x || y else x != y
  }

  function Combined(op: char, a: nat, b: nat): nat
    decreases a + b
  {
    if a == 0 && b == 0 then 0
    else 2 * Combined(op, a / 2, b / 2) + if OnBits(op, a % 2 == 1, b % 2 == 1) then 1 else 0
  }

  lemma {:induction false} CombinedBelow(op: char, a: nat, b: nat, k: nat)
    requires a < Power2(k) && b < Power2(k)
    ensures Combined(op, a, b) < Power2(k)
    decreases k
  {
    if k > 0 { CombinedBelow(op, a / 2, b / 2, k - 1); }
  }

  function Bitwise(op: char, a: U64, b: U64): U64 {
    SmallPowers();
    CombinedBelow(op, a, b, 64);
    Combined(op, a, b)
  }

  /** Bit i of a number. */
  predicate Bit(n: nat, i: nat) { Quotient(n, Power2(i)) % 2 == 1 }

  lemma NextBit(n: nat, i: nat)
    ensures Bit(n, i + 1) == Bit(n / 2, i)
  {
    var p, q := Power2(i), n / 2;
    assert q == p * (q / p) + q % p;
    assert n == 2 * q + n % 2 && 2 * (p * (q / p)) == (2 * p) * (q / p);
    RemainderUnique(n, 2 * p, q / p, 2 * (q % p) + n % 2);
    assert n == (2 * p) * (n / (2 * p)) + n % (2 * p);
  }

  lemma {:induction false} CombinedBit(op: char, a: nat, b: nat, i: nat)
    requires op == '&' || op == '|' || op == '^'
    ensures Bit(Combined(op, a, b), i) == OnBits(op, Bit(a, i), Bit(b, i))
    decreases i
  {
    if i > 0 {
      NextBit(a, i - 1);
      NextBit(b, i - 1);
      NextBit(Combined(op, a, b), i - 1);
      CombinedBit(op, a / 2, b / 2, i - 1);
    }
  }

  lemma {:induction false} CombinedCommutes(op: char, a: nat, b: nat)
    ensures Combined(op, a, b) == Combined(op, b, a)
    decreases a + b
  {
    if a != 0 || b != 0 { CombinedCommutes(op, a / 2, b / 2); }
  }
}
