/**
 Numerals as the expression engine reads and prints them (src/cmpl_internal.c:86-88, 128, 165,
 247): strtoll with base 0, and %ld.
 */
module Numerals {
  const TWO_63 := 0x8000_0000_0000_0000
  const TWO_64 := 0x1_0000_0000_0000_0000

  type U64 = n: nat | n < TWO_64

  function DigitValue(c: char): nat {
    if '0' <= c <= '9' then c as nat - '0' as nat
    else if 'a' <= c <= 'z' then c as nat - 'a' as nat + 10
    else if 'A' <= c <= 'Z' then c as nat - 'A' as nat + 10
    else 36
  }

  function Shifted(base: nat, n: nat): nat {
    if base == 16 then 16 * n else if base == 8 then 8 * n else 10 * n
  }

  /** The value of the longest prefix of digits, in base 8, 10 or 16. */
  function ReadDigits(base: nat, s: string, acc: nat): nat
    decreases |s|
  {
    if s == [] || DigitValue(s[0]) >= base then acc else ReadDigits(base, s[1..], Shifted(base, acc) + DigitValue(s[0]))
  }

  function ReadUnsigned(s: string): nat {
    if |s| >= 3 && s[0] == '0' && (s[1] == 'x' || s[1] == 'X') && DigitValue(s[2]) < 16 then ReadDigits(16, s[2..], 0)
    else if s != [] && s[0] == '0' then ReadDigits(8, s, 0)
    else ReadDigits(10, s, 0)
  }

  /** strtoll(s, 0, 0) of a text without leading blanks: 0 if it is no numeral, clamped to 64 bits. */
  function Strtoll(s: string): (n: int)
    ensures -TWO_63 <= n < TWO_63
  {
    if s != [] && s[0] == '-' then
      var n: int := ReadUnsigned(s[1..]);
      if n > TWO_63 then -TWO_63 else -n
    else
      var n := ReadUnsigned(if s != [] && s[0] == '+' then s[1..] else s);
      if n >= TWO_63 then TWO_63 - 1 else n
  }

  /** A long long as a size_t. */
  function ToU64(n: int): U64
    requires -TWO_63 <= n < TWO_63
  {
    if n < 0 then n + TWO_64 else n
  }

  function Digit(d: nat): (c: char)
    requires d < 10
    ensures '0' <= c <= '9' && DigitValue(c) == d
  {
    '0' + d as char
  }

  function Decimal(n: nat): (s: string)
    ensures s != []
  {
    if n < 10 then [Digit(n)] else Decimal(n / 10) + [Digit(n % 10)]
  }

  /** %ld of a size_t. */
  function Show(n: U64): string {
    if n < TWO_63 then Decimal(n) else "-" + Decimal(TWO_64 - n)
  }

  lemma {:induction false} DecimalDigits(n: nat)
    ensures forall i | 0 <= i < |Decimal(n)| :: '0' <= Decimal(n)[i] <= '9'
    ensures n > 0 ==> Decimal(n)[0] != '0'
  {
    if n >= 10 { DecimalDigits(n / 10); }
  }

  lemma {:induction false} ReadDecimal(n: nat)
    ensures ReadDigits(10, Decimal(n), 0) == n
  {
    if n >= 10 {
      DecimalDigits(n / 10);
      ReadDecimal(n / 10);
      ReadNext(10, Decimal(n / 10), Digit(n % 10), 0);
    }
  }

  /** What %ld prints is read back by strtoll as the same 64 bits; it starts with a digit below 2^63. */
  lemma ShowRoundTrip(n: U64)
    ensures ToU64(Strtoll(Show(n))) == n
    ensures n < TWO_63 <==> '0' <= Show(n)[0] <= '9'
  {
    var m := if n < TWO_63 then n else TWO_64 - n;
    DecimalDigits(m);
    ReadDecimal(m);
    assert ReadUnsigned(Decimal(m)) == m by {
      if m == 0 { assert Decimal(0) == "0" && ReadDigits(8, "0", 0) == ReadDigits(8, "0"[1..], 0); }
    }
    if n >= TWO_63 { assert Show(n)[1..] == Decimal(m); }
  }

  // ---- the three bases ----------------------------------------------------------------------

  /** A number in digits of base 8, 10 or 16. */
  function Spelled(base: nat, n: nat, upper: bool): (s: string)
    requires base == 8 || base == 10 || base == 16
    ensures s != []
  {
    var c := (if upper then "0123456789ABCDEF" else "0123456789abcdef")[n % base];
    if n < base then [c] else Spelled(base, n / base, upper) + [c]
  }

  predicate AreDigits(base: nat, s: string) { forall i | 0 <= i < |s| :: DigitValue(s[i]) < base }

  /** What may follow a numeral: no further digit of its base. */
  predicate NoDigit(base: nat, rest: string) { rest == [] || DigitValue(rest[0]) >= base }

  lemma DigitCharacter(d: nat, upper: bool)
    requires d < 16
    ensures DigitValue((if upper then "0123456789ABCDEF" else "0123456789abcdef")[d]) == d
  {
  }

  lemma {:induction false} ReadNext(base: nat, s: string, c: char, acc: nat)
    requires AreDigits(base, s) && DigitValue(c) < base
    ensures ReadDigits(base, s + [c], acc) == Shifted(base, ReadDigits(base, s, acc)) + DigitValue(c)
    decreases |s|
  {
    hide Shifted, DigitValue;
    var t := s + [c];
    if s == [] {
      assert t[1..] == [];
    } else {
      assert t[1..] == s[1..] + [c];
      ReadNext(base, s[1..], c, Shifted(base, acc) + DigitValue(s[0]));
    }
  }

  lemma {:induction false} ReadStops(base: nat, s: string, rest: string, acc: nat)
    requires AreDigits(base, s) && NoDigit(base, rest)
    ensures ReadDigits(base, s + rest, acc) == ReadDigits(base, s, acc)
    decreases |s|
  {
    hide Shifted, DigitValue;
    if s == [] {
      assert s + rest == rest;
    } else {
      assert (s + rest)[1..] == s[1..] + rest;
      ReadStops(base, s[1..], rest, Shifted(base, acc) + DigitValue(s[0]));
    }
  }

  lemma LastDigit(base: nat, n: nat)
    requires base == 8 || base == 10 || base == 16
    ensures n % base < base && Shifted(base, n / base) + n % base == n && (n >= base ==> 0 < n / base < n)
  {
    assert n == 8 * (n / 8) + n % 8 && n == 10 * (n / 10) + n % 10 && n == 16 * (n / 16) + n % 16;
  }

  lemma {:induction false} SpelledRead(base: nat, n: nat, upper: bool)
    requires base == 8 || base == 10 || base == 16
    ensures AreDigits(base, Spelled(base, n, upper)) && ReadDigits(base, Spelled(base, n, upper), 0) == n
    ensures n > 0 ==> Spelled(base, n, upper)[0] != '0'
  {
    hide ReadDigits, DigitValue, Shifted;
    var d, q := n % base, n / base;
    LastDigit(base, n);
    var c := (if upper then "0123456789ABCDEF" else "0123456789abcdef")[d];
    DigitCharacter(d, upper);
    if n >= base {
      assert Spelled(base, n, upper) == Spelled(base, q, upper) + [c];
      SpelledRead(base, q, upper);
      ReadNext(base, Spelled(base, q, upper), c, 0);
    } else {
      assert Spelled(base, n, upper) == [] + [c];
      if n > 0 { SmallDigit(base, n); ZeroCharacter(d, upper); }
      NothingRead(base);
      ShiftedZero(base);
      ReadNext(base, [], c, 0);
      assert d == n by { SmallDigit(base, n); }
    }
  }

  lemma SmallDigit(base: nat, n: nat)
    requires n < base
    ensures n % base == n
  {
  }

  lemma ZeroCharacter(d: nat, upper: bool)
    requires 0 < d < 16
    ensures (if upper then "0123456789ABCDEF" else "0123456789abcdef")[d] != '0'
  {
  }

  lemma ShiftedZero(base: nat)
    ensures Shifted(base, 0) == 0
  {
  }

  lemma NothingRead(base: nat)
    ensures ReadDigits(base, [], 0) == 0
  {
  }

  /** How a numeral shows its base. */
  function Prefix(base: nat, upper: bool): string {
    if base == 16 then (if upper then "0X" else "0x") else if base == 8 then "0" else ""
  }

  /** A numeral in any base, with either sign, is read as the number nearest to it in 64 bits. */
  lemma NumeralMeaning(base: nat, n: nat, upper: bool, rest: string)
    requires base == 8 || base == 10 || base == 16
    requires NoDigit(base, rest) && (n == 0 ==> rest == [])
    ensures var s := Prefix(base, upper) + Spelled(base, n, upper) + rest;
            && Strtoll(s) == (if n >= TWO_63 then TWO_63 - 1 else n)
            && Strtoll("+" + s) == (if n >= TWO_63 then TWO_63 - 1 else n)
            && Strtoll("-" + s) == 0 - (if n > TWO_63 then TWO_63 else n)
  {
    var s := Prefix(base, upper) + Spelled(base, n, upper) + rest;
    UnsignedMeaning(base, n, upper, rest);
    assert ("+" + s)[1..] == s && ("-" + s)[1..] == s;
    hide ReadUnsigned, Spelled;
  }

  lemma UnsignedMeaning(base: nat, n: nat, upper: bool, rest: string)
    requires base == 8 || base == 10 || base == 16
    requires NoDigit(base, rest) && (n == 0 ==> rest == [])
    ensures var s := Prefix(base, upper) + Spelled(base, n, upper) + rest;
            s != [] && s[0] != '+' && s[0] != '-' && ReadUnsigned(s) == n
  {
    hide Spelled, ReadDigits;
    var d := Spelled(base, n, upper);
    var s := Prefix(base, upper) + d + rest;
    SpelledRead(base, n, upper);
    ReadStops(base, d, rest, 0);
    assert DigitValue(d[0]) < base;
    if base == 16 {
      assert s[2..] == d + rest && s[2] == d[0];
    } else if base == 8 {
      assert s[0] == '0' && s[1] == d[0] && s[1..] == d + rest;
      LeadingZero(s);
    } else {
      assert s == d + rest && s[0] == d[0];
      if n == 0 { assert s == d; ZeroDigit(d); }
    }
  }

  lemma LeadingZero(s: string)
    requires s != [] && s[0] == '0'
    ensures ReadDigits(8, s, 0) == ReadDigits(8, s[1..], 0)
  {
  }

  /** All that is read as 0 in base 10 is "0" here. */
  lemma ZeroDigit(d: string)
    requires d == Spelled(10, 0, false) || d == Spelled(10, 0, true)
    ensures d == "0" && ReadUnsigned(d) == 0
  {
    assert ReadDigits(8, "0", 0) == ReadDigits(8, "0"[1..], 0);
  }
}
