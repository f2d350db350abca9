/**
 What the expression engine makes of texts, character by character and operator by operator
 (src/cmpl_internal.c:3-9, 70-98, 172-251).
 */
module Precedence {
  import opened Division
  import opened Numerals
  import opened Expr
  import opened Yard
  import opened Residual
  import opened Departures

  // ---- the order of two operators -----------------------------------------------------------

  predicate Scales(c: char) { c == '*' || c == '/' || c == '%' }

  predicate Moves(c: char) { c == '<' || c == '>' }

  predicate Masks(c: char) { c == '&' || c == '|' }

  predicate Adds(c: char) { c == '+' || c == '-' }

  predicate IsOperator(c: char) { Scales(c) || Moves(c) || Masks(c) || Adds(c) }

  /** q binds tighter than p. */
  predicate Tighter(q: char, p: char) {
    || (Scales(q) && (Moves(p) || Masks(p) || Adds(p)))
    || (Moves(q) && (Masks(p) || Adds(p)))
    || (Masks(q) && Adds(p))
  }

  /** The operands a, b and c on the value stack, with p and q applied in the order of the text or q first. */
  function InTurn(v: Variant, env: Env, a: string, p: char, b: string, q: char, c: string, w: Work): Work {
    if Tighter(q, p) then ParseOp(v, env, p, ParseOp(v, env, q, Push(Push(Push(w, a), b), c)))
    else ParseOp(v, env, q, Push(ParseOp(v, env, p, Push(Push(w, a), b)), c))
  }

  function Pair(a: string, p: char, b: string, q: char, c: string): Tree {
    if Tighter(q, p) then Binary(p, Atom(a), Binary(q, Atom(b), Atom(c), false), false)
    else Binary(q, Binary(p, Atom(a), Atom(b), false), Atom(c), false)
  }

  lemma Levels(p: char, q: char)
    requires IsInfix(p) && IsInfix(q)
    ensures Tighter(q, p) <==> Prec(q) > Prec(p)
    ensures Prec(p) < 4 && Prec(q) < 4
  {
  }

  lemma BinaryRun(v: Variant, env: Env, p: char, l: Tree, r: Tree, w: Work)
    ensures TreeRun(v, env, Binary(p, l, r, false), w) == ParseOp(v, env, p, TreeRun(v, env, r, TreeRun(v, env, l, w)))
  {
  }

  lemma AtomRun(v: Variant, env: Env, a: string, w: Work)
    ensures TreeRun(v, env, Atom(a), w) == Push(w, a)
  {
  }

  lemma PairRun(v: Variant, env: Env, a: string, p: char, b: string, q: char, c: string, w: Work)
    ensures TreeRun(v, env, Pair(a, p, b, q, c), w) == InTurn(v, env, a, p, b, q, c, w)
  {
    hide Tighter, ParseOp, TreeRun, Push;
    var wa := Push(w, a);
    AtomRun(v, env, a, w);
    AtomRun(v, env, b, wa);
    AtomRun(v, env, c, Push(wa, b));
    AtomRun(v, env, c, ParseOp(v, env, p, Push(wa, b)));
    BinaryRun(v, env, p, Atom(a), Atom(b), w);
    BinaryRun(v, env, q, Atom(b), Atom(c), wa);
    BinaryRun(v, env, p, Atom(a), Binary(q, Atom(b), Atom(c), false), w);
    BinaryRun(v, env, q, Binary(p, Atom(a), Atom(b), false), Atom(c), w);
  }

  /** A word, with or without a sign. */
  predicate Simple(v: Variant, t: Tree) { WellFormed(v, t) && Level(t) == 4 && !EndsInGroup(t) }

  lemma SimpleWord(v: Variant, a: string)
    requires IsWord(a)
    ensures Simple(v, Atom(a)) && Print(Atom(a)) == a
  {
  }

  lemma SimpleSign(v: Variant, s: char, a: string)
    requires IsWord(a) && IsSign(s)
    ensures Simple(v, Unary(s, Atom(a))) && Print(Unary(s, Atom(a))) == [s] + a
  {
    SimpleWord(v, a);
  }

  /** A binary operator on operands that bind at least as tight, the second one tighter. */
  lemma BinaryFormed(v: Variant, p: char, l: Tree, r: Tree)
    requires IsInfix(p) && WellFormed(v, l) && WellFormed(v, r) && Level(l) >= Prec(p) && Level(r) > Prec(p)
    requires !EndsInGroup(l) && !EndsInGroup(r)
    ensures var t := Binary(p, l, r, false);
            WellFormed(v, t) && Level(t) == Prec(p) && !EndsInGroup(t) && Print(t) == Print(l) + [p] + Print(r)
  {
  }

  lemma PairFormed(v: Variant, a: string, p: char, b: string, q: char, c: string)
    requires IsWord(a) && IsWord(b) && IsWord(c) && IsInfix(p) && IsInfix(q)
    ensures WellFormed(v, Pair(a, p, b, q, c)) && Print(Pair(a, p, b, q, c)) == a + [p] + b + [q] + c
  {
    Levels(p, q);
    SimpleWord(v, a);
    SimpleWord(v, b);
    SimpleWord(v, c);
    hide Prec, Tighter, Print, WellFormed, EndsInGroup, Level, IsInfix, IsWord;
    if Tighter(q, p) {
      BinaryFormed(v, q, Atom(b), Atom(c));
      BinaryFormed(v, p, Atom(a), Binary(q, Atom(b), Atom(c), false));
      assert a + [p] + (b + [q] + c) == a + [p] + b + [q] + c;
    } else {
      BinaryFormed(v, p, Atom(a), Atom(b));
      BinaryFormed(v, q, Binary(p, Atom(a), Atom(b), false), Atom(c));
    }
  }

  /**
   Of two binary operators the second is applied first exactly if it binds tighter: `*`, `/` and `%` before
   `<` and `>` before `&` and `|` before `+` and `-`.
   */
  lemma PairOrder(v: Variant, env: Env, a: string, p: char, b: string, q: char, c: string)
    requires IsWord(a) && IsWord(b) && IsWord(c) && IsOperator(p) && IsOperator(q)
    ensures Loop(v, env, a + [p] + b + [q] + c, Start()) ==
            Finish(v, env, InTurn(v, env, a, p, b, q, c, Start().work), "")
  {
    hide Loop, Finish, ParseOp, Tighter, WellFormed, Print;
    PairFormed(v, a, p, b, q, c);
    TreeOrder(v, env, Pair(a, p, b, q, c));
    PairRun(v, env, a, p, b, q, c, Start().work);
  }

  /** A sign binds tighter than any binary operator, on either side; `-` as a sign is negation, `+` none. */
  lemma SignOrder(v: Variant, env: Env, s: char, a: string, p: char, b: string)
    requires IsWord(a) && IsWord(b) && IsOperator(p) && (Adds(s) || s == '~' || s == '!')
    ensures var w := Start().work;
            && Loop(v, env, [s] + a + [p] + b, Start()) ==
                 Finish(v, env, ParseOp(v, env, p, Push(Signed(v, env, s, Push(w, a)), b)), "")
            && Loop(v, env, a + [p] + [s] + b, Start()) ==
                 Finish(v, env, ParseOp(v, env, p, Signed(v, env, s, Push(Push(w, a), b))), "")
  {
    hide Loop, Finish, ParseOp, Push, WellFormed, Print;
    var t := Binary(p, Unary(s, Atom(a)), Atom(b), false);
    var u := Binary(p, Atom(a), Unary(s, Atom(b)), false);
    var w := Start().work;
    SignFormed(v, s, a, p, b);
    TreeOrder(v, env, t);
    TreeOrder(v, env, u);
    SignRun(v, env, s, a, w);
    SignRun(v, env, s, b, Push(w, a));
    AtomRun(v, env, a, w);
    AtomRun(v, env, b, Signed(v, env, s, Push(w, a)));
    BinaryRun(v, env, p, Unary(s, Atom(a)), Atom(b), w);
    BinaryRun(v, env, p, Atom(a), Unary(s, Atom(b)), w);
  }

  lemma SignFormed(v: Variant, s: char, a: string, p: char, b: string)
    requires IsWord(a) && IsWord(b) && IsInfix(p) && IsSign(s)
    ensures var t := Binary(p, Unary(s, Atom(a)), Atom(b), false);
            WellFormed(v, t) && Print(t) == [s] + a + [p] + b
    ensures var u := Binary(p, Atom(a), Unary(s, Atom(b)), false);
            WellFormed(v, u) && Print(u) == a + [p] + [s] + b
  {
    Levels(p, p);
    SimpleWord(v, a);
    SimpleWord(v, b);
    SimpleSign(v, s, a);
    SimpleSign(v, s, b);
    hide Prec, Print, WellFormed, EndsInGroup, Level, IsInfix, IsWord;
    BinaryFormed(v, p, Unary(s, Atom(a)), Atom(b));
    BinaryFormed(v, p, Atom(a), Unary(s, Atom(b)));
    assert a + [p] + ([s] + b) == a + [p] + [s] + b;
  }

  lemma SignRun(v: Variant, env: Env, s: char, a: string, w: Work)
    ensures TreeRun(v, env, Unary(s, Atom(a)), w) == Signed(v, env, s, Push(w, a))
  {
    AtomRun(v, env, a, w);
    ApplySign(v, env, s, Push(w, a));
  }

  function Signed(v: Variant, env: Env, s: char, w: Work): Work {
    if s == '+' then w else if s == '-' then ParseOp(v, env, '_', w) else ParseOp(v, env, s, w)
  }

  /** A doubled shift reads like a single one. */
  lemma DoubledShift(v: Variant, env: Env, a: string, p: char, b: string)
    requires IsWord(a) && IsWord(b) && Moves(p)
    ensures Loop(v, env, a + [p, p] + b, Start()) == Loop(v, env, a + [p] + b, Start())
  {
    var t, u := Binary(p, Atom(a), Atom(b), true), Binary(p, Atom(a), Atom(b), false);
    TreeOrder(v, env, t);
    TreeOrder(v, env, u);
    assert Print(t) == a + [p, p] + b && Print(u) == a + [p] + b;
  }

  /** "2+3*4" is folded to 14. */
  lemma TwoPlusThreeTimesFour(v: Variant, env: Env, text: string)
    requires text == "2+3*4"
    ensures Parse(v, env, text, 0) == Constant(14, 0)
  {
    var a, b, c := "2", "3", "4";
    assert a + ['+'] + b + ['*'] + c == text;
    PairOrder(v, env, a, '+', b, '*', c);
    Digits234(env);
    ProductThenSum(v, env, a, b, c);
    assert Tighter('*', '+');
    ShowRoundTrip(14);
  }

  lemma ProductThenSum(v: Variant, env: Env, a: string, b: string, c: string)
    requires ParseLit(env, a) == Known(2) && ParseLit(env, b) == Known(3) && ParseLit(env, c) == Known(4)
    requires ParseLit(env, Show(12)) == Known(12)
    ensures var w := Push(Push(Push(Start().work, a), b), c);
            ParseOp(v, env, '+', ParseOp(v, env, '*', w)) == Work([Show(14)], false, 0)
  {
    hide ParseLit, Show;
    assert Times(3, 4) == 12 && Times(4, 3) == 12;
    var w := Push(Push(Push(Start().work, a), b), c);
    assert w.results == [c, b, a] && w.results[1..] == [b, a] && w.results[1..][1..] == [a];
    var u := ParseOp(v, env, '*', w);
    assert u == Work([Show(12)] + [a], false, 0);
    assert u.results[1..] == [a] && u.results[1..][1..] == [];
  }

  lemma Digits234(env: Env)
    ensures ParseLit(env, "2") == Known(2) && ParseLit(env, "3") == Known(3) && ParseLit(env, "4") == Known(4)
    ensures ParseLit(env, Show(12)) == Known(12)
  {
    OneDigit("2");
    OneDigit("3");
    OneDigit("4");
    ShowRoundTrip(12);
  }
}
