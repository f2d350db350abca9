/**
 What the expression engine makes of a tree (src/cmpl_internal.c:84-171, 233-250): a constant where all
 operands are known, otherwise a text to be parsed again once they are.
 */
module Residual {
  import opened Numerals
  import opened Expr
  import opened Yard

  // ---- one result, and the error that prevents it -------------------------------------------

  function SignOf(op: char): char { if op == '-' then '_' else op }

  function Combine(v: Variant, env: Env, op: char, left: string, right: string): Folded {
    if v.sourceOrder then Fold2(env, op, left, right) else Fold2(env, op, right, left)
  }

  /** The text left for a tree, unless something in it is divided by zero. */
  function Rendered(v: Variant, env: Env, t: Tree): Folded {
    match t
    case Atom(word) => Operand(word)
    case Group(inner) => Rendered(v, env, inner)
    case Unary(op, arg) =>
      var a := Rendered(v, env, arg);
      if a.Operand? && op != '+' then Operand(Fold1(env, SignOf(op), a.text)) else a
    case Binary(op, left, right, _) =>
      var l, r := Rendered(v, env, left), Rendered(v, env, right);
      if l.Operand? && r.Operand? then Combine(v, env, op, l.text, r.text) else Divided
  }

  predicate UnknownText(env: Env, f: Folded) { f.Operand? && ParseLit(env, f.text).Unknown? }

  /** Some operator of the tree meets an operand it does not know. */
  predicate Unresolved(v: Variant, env: Env, t: Tree) {
    match t
    case Atom(_) => false
    case Group(inner) => Unresolved(v, env, inner)
    case Unary(op, arg) => Unresolved(v, env, arg) || (op != '+' && UnknownText(env, Rendered(v, env, arg)))
    case Binary(_, left, right, _) =>
      || Unresolved(v, env, left) || Unresolved(v, env, right)
      || UnknownText(env, Rendered(v, env, left)) || UnknownText(env, Rendered(v, env, right))
  }

  lemma {:induction false} ErrorsStay(v: Variant, env: Env, t: Tree, w: Work)
    ensures TreeRun(v, env, t, w).errors >= w.errors
  {
    match t
    case Atom(_) =>
    case Group(inner) => ErrorsStay(v, env, inner, w);
    case Unary(op, arg) =>
      ErrorsStay(v, env, arg, w);
      ApplySign(v, env, op, TreeRun(v, env, arg, w));
    case Binary(_, left, right, _) =>
      ErrorsStay(v, env, left, w);
      ErrorsStay(v, env, right, TreeRun(v, env, left, w));
  }

  lemma ApplySign(v: Variant, env: Env, op: char, w: Work)
    ensures ApplyAll(v, env, Sign(op), w) == if op == '+' then w else ParseOp(v, env, SignOf(op), w)
  {
    if op != '+' {
      assert Sign(op) == [SignOf(op)] && Sign(op)[1..] == "";
    }
  }

  /** The value stack after a tree: one more text, or more errors. */
  predicate Leaves(v: Variant, env: Env, t: Tree, w: Work, after: Work) {
    match Rendered(v, env, t)
    case Operand(x) => after == Work([x] + w.results, w.unresolved || Unresolved(v, env, t), w.errors)
    case Divided => after.errors > w.errors
    case Dropped => false
  }

  lemma ApplyInfix(v: Variant, env: Env, op: char, left: string, right: string, w: Work)
    requires IsInfix(op) && |w.results| >= 2 && w.results[0] == right && w.results[1] == left
    ensures var after := ParseOp(v, env, op, w);
            match Combine(v, env, op, left, right)
            case Operand(x) =>
              var unknown := ParseLit(env, left).Unknown? || ParseLit(env, right).Unknown?;
              after == Work([x] + w.results[2..], w.unresolved || unknown, w.errors)
            case Divided => after.errors > w.errors
            case Dropped => false
  {
    assert w.results[1..][1..] == w.results[2..];
  }

  lemma UnaryLeaves(v: Variant, env: Env, op: char, arg: Tree, w: Work, w1: Work)
    requires IsSign(op) && Leaves(v, env, arg, w, w1) && w1.errors >= w.errors
    ensures Leaves(v, env, Unary(op, arg), w, ApplyAll(v, env, Sign(op), w1))
  {
    ApplySign(v, env, op, w1);
    if Rendered(v, env, arg).Operand? { assert w1.results[1..] == w.results; }
  }

  lemma BinaryLeaves(v: Variant, env: Env, t: Tree, w: Work, w1: Work, w2: Work)
    requires t.Binary? && IsInfix(t.op)
    requires Leaves(v, env, t.left, w, w1) && Leaves(v, env, t.right, w1, w2) && w.errors <= w1.errors <= w2.errors
    ensures Leaves(v, env, t, w, ParseOp(v, env, t.op, w2))
  {
    var l, r := Rendered(v, env, t.left), Rendered(v, env, t.right);
    if l.Operand? && r.Operand? {
      assert w2.results[2..] == w.results;
      ApplyInfix(v, env, t.op, l.text, r.text, w2);
    }
  }

  lemma {:induction false} OneResult(v: Variant, env: Env, t: Tree, w: Work)
    requires WellFormed(v, t)
    ensures Leaves(v, env, t, w, TreeRun(v, env, t, w))
  {
    match t
    case Atom(_) =>
    case Group(inner) => OneResult(v, env, inner, w);
    case Unary(op, arg) =>
      OneResult(v, env, arg, w);
      ErrorsStay(v, env, arg, w);
      UnaryLeaves(v, env, op, arg, w, TreeRun(v, env, arg, w));
    case Binary(_, left, right, _) =>
      var w1 := TreeRun(v, env, left, w);
      OneResult(v, env, left, w);
      OneResult(v, env, right, w1);
      ErrorsStay(v, env, left, w);
      ErrorsStay(v, env, right, w1);
      BinaryLeaves(v, env, t, w, w1, TreeRun(v, env, right, w1));
  }

  /** Every well-formed text gives exactly one result and no error, unless a divisor is zero. */
  lemma Accepted(v: Variant, env: Env, t: Tree)
    requires WellFormed(v, t)
    ensures var o := Loop(v, env, Print(t), Start());
            if Rendered(v, env, t).Operand? then o == Text(Rendered(v, env, t).text, Unresolved(v, env, t), 0)
            else !o.Overrun? && o.errors > 0
  {
    TreeOrder(v, env, t);
    OneResult(v, env, t, Start().work);
  }

  // ---- what a tree means --------------------------------------------------------------------

  /** The value of a tree modulo 2^64; unknown if an operand is, or if a divisor is zero. */
  function Meaning(env: Env, t: Tree): Literal {
    match t
    case Atom(word) => ParseLit(env, word)
    case Group(inner) => Meaning(env, inner)
    case Unary(op, arg) =>
      var a := Meaning(env, arg);
      if a.Known? && op != '+' then Known(Apply1(SignOf(op), a.value)) else a
    case Binary(op, left, right, _) =>
      var l, r := Meaning(env, left), Meaning(env, right);
      if l.Unknown? || r.Unknown? then Unknown
      else
        var applied := Apply2(op, l.value, r.value);
        if applied.Value? then Known(applied.n) else Unknown
  }

  /** A word, up to brackets and plus signs around it. */
  predicate IsBare(t: Tree) {
    match t
    case Atom(_) => true
    case Group(inner) => IsBare(inner)
    case Unary(op, arg) => op == '+' && IsBare(arg)
    case Binary(_, _, _, _) => false
  }

  function Word(t: Tree): string
    requires IsBare(t)
  {
    match t
    case Atom(word) => word
    case Group(inner) => Word(inner)
    case Unary(_, arg) => Word(arg)
  }

  /** A computed operand is printed as a signed number, and read back only below 2^63. */
  predicate Small(env: Env, t: Tree) {
    IsBare(t) || (Meaning(env, t).Known? && Meaning(env, t).value < TWO_63)
  }

  predicate SmallOperands(env: Env, t: Tree) {
    match t
    case Atom(_) => true
    case Group(inner) => SmallOperands(env, inner)
    case Unary(op, arg) => SmallOperands(env, arg) && (op == '+' || Small(env, arg))
    case Binary(_, left, right, _) =>
      SmallOperands(env, left) && SmallOperands(env, right) && Small(env, left) && Small(env, right)
  }

  predicate WellNamed(env: Env) {
    forall name | name in env.symbols :: IsWord(name)
  }

  /** The later environment keeps the location counter and everything that was absolute. */
  predicate Extends(early: Env, late: Env) {
    && WellNamed(early) && WellNamed(late) && early.here == late.here
    && forall name | name in early.symbols && early.symbols[name].Absolute? ::
         name in late.symbols && late.symbols[name] == early.symbols[name]
  }

  // ---- what the engine sees -----------------------------------------------------------------

  /** A computed operand is printed as a signed number, which from 2^63 on is not read back. */
  function Clip(l: Literal): Literal { if l.Known? && l.value >= TWO_63 then Unknown else l }

  /** The value of a tree as an operand, as far as the engine knows it. */
  function Seen(env: Env, t: Tree): Literal
    decreases t, 1
  {
    if IsBare(t) then Computed(env, t) else Clip(Computed(env, t))
  }

  /** The value of a tree from what is seen of its operands. */
  function Computed(env: Env, t: Tree): Literal
    decreases t, 0
  {
    match t
    case Atom(word) => ParseLit(env, word)
    case Group(inner) => Computed(env, inner)
    case Unary(op, arg) =>
      if op == '+' then Computed(env, arg)
      else
        var a := Seen(env, arg);
        if a.Known? then Known(Apply1(SignOf(op), a.value)) else Unknown
    case Binary(op, left, right, _) =>
      var l, r := Seen(env, left), Seen(env, right);
      if l.Unknown? || r.Unknown? then Unknown
      else
        var applied := Apply2(op, l.value, r.value);
        if applied.Value? then Known(applied.n) else Unknown
  }

  /** Somewhere a value that is seen is divided by one that is seen to be 0. */
  predicate DividesByZero(env: Env, t: Tree) {
    match t
    case Atom(_) => false
    case Group(inner) => DividesByZero(env, inner)
    case Unary(_, arg) => DividesByZero(env, arg)
    case Binary(op, left, right, _) =>
      || DividesByZero(env, left) || DividesByZero(env, right)
      || ((op == '/' || op == '%') && Seen(env, left).Known? && Seen(env, right) == Known(0))
  }

  lemma NotAName(env: Env, text: string)
    requires WellNamed(env) && text != [] && !IsAllowed(text[0])
    ensures ParseLit(env, text).Unknown?
  {
    assert text != ".";
  }

  lemma ShownSeen(env: Env, n: U64)
    requires WellNamed(env)
    ensures ParseLit(env, Show(n)) == Clip(Known(n))
  {
    ShowRoundTrip(n);
    if n >= TWO_63 {
      assert Show(n)[0] == '-';
      NotAName(env, Show(n));
    }
  }

  /** The text of a tree is the value that the engine sees of it. */
  predicate Faithful(env: Env, t: Tree) {
    match Rendered(Repaired(), env, t)
    case Operand(x) =>
      && !DividesByZero(env, t) && ParseLit(env, x) == Seen(env, t)
      && (Unresolved(Repaired(), env, t) <==> !IsBare(t) && Computed(env, t).Unknown?)
      && (IsBare(t) ==> x == Word(t))
      && (!IsBare(t) && Computed(env, t).Known? ==> x == Show(Computed(env, t).value))
    case Divided => DividesByZero(env, t)
    case Dropped => false
  }

  lemma UnaryFaithful(env: Env, op: char, arg: Tree)
    requires WellNamed(env) && IsSign(op) && op != '+' && Faithful(env, arg)
    ensures Faithful(env, Unary(op, arg))
  {
    var a := Rendered(Repaired(), env, arg);
    if a.Operand? {
      match Seen(env, arg)
      case Known(n) => ShownSeen(env, Apply1(SignOf(op), n));
      case Unknown => NotAName(env, [op] + a.text);
    }
  }

  lemma BinaryFaithful(env: Env, t: Tree)
    requires WellNamed(env) && t.Binary? && IsInfix(t.op) && Faithful(env, t.left) && Faithful(env, t.right)
    ensures Faithful(env, t)
  {
    var l, r := Rendered(Repaired(), env, t.left), Rendered(Repaired(), env, t.right);
    if l.Operand? && r.Operand? {
      if Seen(env, t.left).Known? && Seen(env, t.right).Known? {
        var applied := Apply2(t.op, Seen(env, t.left).value, Seen(env, t.right).value);
        if applied.Value? { ShownSeen(env, applied.n); }
      } else {
        NotAName(env, "(" + l.text + [t.op] + r.text + ")");
      }
    }
  }

  lemma {:induction false} TreeFaithful(env: Env, t: Tree)
    requires WellFormed(Repaired(), t) && WellNamed(env)
    ensures Faithful(env, t)
  {
    match t
    case Atom(_) =>
    case Group(inner) => TreeFaithful(env, inner);
    case Unary(op, arg) =>
      TreeFaithful(env, arg);
      if op != '+' { UnaryFaithful(env, op, arg); }
    case Binary(op, left, right, _) =>
      TreeFaithful(env, left);
      TreeFaithful(env, right);
      BinaryFaithful(env, t);
  }

  // ---- the residual tree --------------------------------------------------------------------

  /** The tree that the text of a number is read as. */
  function Shown(n: U64): Tree {
    if n < TWO_63 then Atom(Decimal(n)) else Unary('-', Atom(Decimal(TWO_64 - n)))
  }

  /** The tree of the text that is left. */
  function Residue(env: Env, t: Tree): Tree {
    match t
    case Atom(_) => t
    case Group(inner) => Residue(env, inner)
    case Unary(op, arg) =>
      if op == '+' then Residue(env, arg)
      else if Computed(env, t).Known? then Shown(Computed(env, t).value)
      else Unary(op, Residue(env, arg))
    case Binary(op, left, right, _) =>
      if Computed(env, t).Known? then Shown(Computed(env, t).value)
      else Group(Binary(op, Residue(env, left), Residue(env, right), false))
  }

  lemma ShownTree(env: Env, n: U64)
    ensures WellFormed(Repaired(), Shown(n)) && Level(Shown(n)) == 4 && Print(Shown(n)) == Show(n)
    ensures Seen(env, Shown(n)) == Clip(Known(n)) && !DividesByZero(env, Shown(n))
  {
    var m := if n < TWO_63 then n else TWO_64 - n;
    ShowRoundTrip(n);
    DecimalDigits(m);
    assert IsWord(Decimal(m));
    if n >= TWO_63 { ShownNegative(env, m); }
  }

  /** The largest magnitude is cut to 2^63 - 1, which still gives a negative number. */
  lemma ShownNegative(env: Env, m: U64)
    requires 0 < m <= TWO_63
    ensures Seen(env, Atom(Decimal(m))).Known? && 0 < Seen(env, Atom(Decimal(m))).value <= TWO_63
  {
    DecimalDigits(m);
    ReadDecimal(m);
  }

  lemma GroupPrints(op: char, l: Tree, r: Tree)
    ensures Print(Group(Binary(op, l, r, false))) == "(" + Print(l) + [op] + Print(r) + ")"
  {
  }

  predicate ResidueIs(env: Env, t: Tree) {
    var r := Residue(env, t);
    && Rendered(Repaired(), env, t) == Operand(Print(r)) && WellFormed(Repaired(), r) && Level(r) == 4
    && (IsBare(t) ==> r == Atom(Word(t)))
    && (!IsBare(t) && Computed(env, t).Unknown? ==> !IsBare(r))
  }

  lemma BinaryResidue(env: Env, t: Tree)
    requires WellFormed(Repaired(), t) && WellNamed(env) && !DividesByZero(env, t)
    requires t.Binary? && ResidueIs(env, t.left) && ResidueIs(env, t.right)
    ensures ResidueIs(env, t)
  {
    TreeFaithful(env, t);
    if Computed(env, t).Known? {
      ShownTree(env, Computed(env, t).value);
    } else {
      TreeFaithful(env, t.left);
      TreeFaithful(env, t.right);
      GroupPrints(t.op, Residue(env, t.left), Residue(env, t.right));
    }
  }

  lemma UnaryResidue(env: Env, t: Tree)
    requires WellFormed(Repaired(), t) && WellNamed(env) && !DividesByZero(env, t)
    requires t.Unary? && t.op != '+' && ResidueIs(env, t.arg)
    ensures ResidueIs(env, t)
  {
    TreeFaithful(env, t);
    TreeFaithful(env, t.arg);
    if Computed(env, t).Known? { ShownTree(env, Computed(env, t).value); }
  }

  /** What is left of a tree is the text of its residue, which is well-formed. */
  lemma {:induction false} ResiduePrints(env: Env, t: Tree)
    requires WellFormed(Repaired(), t) && WellNamed(env) && !DividesByZero(env, t)
    ensures ResidueIs(env, t)
  {
    match t
    case Atom(_) =>
    case Group(inner) => ResiduePrints(env, inner);
    case Unary(op, arg) =>
      ResiduePrints(env, arg);
      if op != '+' { UnaryResidue(env, t); }
    case Binary(op, left, right, _) =>
      ResiduePrints(env, left);
      ResiduePrints(env, right);
      BinaryResidue(env, t);
  }

  // ---- later environments -------------------------------------------------------------------

  lemma SameWord(early: Env, late: Env, word: string)
    requires Extends(early, late) && ParseLit(early, word).Known?
    ensures ParseLit(late, word) == ParseLit(early, word)
  {
  }

  /** What is seen stays as it is; so does a division by 0. */
  lemma {:induction false} SeenStays(early: Env, late: Env, t: Tree)
    requires Extends(early, late)
    ensures Computed(early, t).Known? ==>
              Computed(late, t) == Computed(early, t) && DividesByZero(late, t) == DividesByZero(early, t)
    ensures DividesByZero(early, t) ==> DividesByZero(late, t)
  {
    match t
    case Atom(word) => if ParseLit(early, word).Known? { SameWord(early, late, word); }
    case Group(inner) => SeenStays(early, late, inner);
    case Unary(_, arg) => SeenStays(early, late, arg);
    case Binary(_, left, right, _) => SeenStays(early, late, left); SeenStays(early, late, right);
  }

  /** The residue is seen later as the tree itself. */
  predicate SeenAlike(early: Env, late: Env, t: Tree) {
    var r := Residue(early, t);
    && Seen(late, r) == Seen(late, t) && (DividesByZero(late, r) <==> DividesByZero(late, t))
    && (!IsBare(t) && Computed(early, t).Unknown? ==> !IsBare(r) && Computed(late, r) == Computed(late, t))
  }

  lemma {:induction false} ResidueLater(early: Env, late: Env, t: Tree)
    requires WellFormed(Repaired(), t) && Extends(early, late) && !DividesByZero(early, t)
    ensures SeenAlike(early, late, t)
  {
    match t
    case Atom(_) =>
    case Group(inner) => ResidueLater(early, late, inner);
    case Unary(op, arg) =>
      ResidueLater(early, late, arg);
      if op == '+' { PlusLater(early, late, arg); }
      else if Computed(early, t).Known? { FoldedLater(early, late, t); }
      else { UnaryLater(early, late, t); }
    case Binary(op, left, right, _) =>
      ResidueLater(early, late, left);
      ResidueLater(early, late, right);
      if Computed(early, t).Known? { FoldedLater(early, late, t); } else { BinaryLater(early, late, t); }
  }

  lemma PlusLater(early: Env, late: Env, arg: Tree)
    requires SeenAlike(early, late, arg)
    ensures SeenAlike(early, late, Unary('+', arg))
  {
    assert Residue(early, Unary('+', arg)) == Residue(early, arg);
  }

  lemma UnaryLater(early: Env, late: Env, t: Tree)
    requires t.Unary? && t.op != '+' && Computed(early, t).Unknown? && SeenAlike(early, late, t.arg)
    ensures SeenAlike(early, late, t)
  {
    assert Residue(early, t) == Unary(t.op, Residue(early, t.arg));
  }

  lemma BinaryLater(early: Env, late: Env, t: Tree)
    requires t.Binary? && Computed(early, t).Unknown?
    requires SeenAlike(early, late, t.left) && SeenAlike(early, late, t.right)
    ensures SeenAlike(early, late, t)
  {
    var b := Binary(t.op, Residue(early, t.left), Residue(early, t.right), false);
    assert Residue(early, t) == Group(b);
    assert Computed(late, b) == Computed(late, t) && (DividesByZero(late, b) <==> DividesByZero(late, t));
    assert Computed(late, Group(b)) == Computed(late, b) && !IsBare(Group(b)) && !IsBare(t);
    assert DividesByZero(late, Group(b)) == DividesByZero(late, b);
    assert Seen(late, Group(b)) == Clip(Computed(late, b)) && Seen(late, t) == Clip(Computed(late, t));
  }

  lemma FoldedLater(early: Env, late: Env, t: Tree)
    requires Extends(early, late) && !DividesByZero(early, t) && !IsBare(t) && Computed(early, t).Known?
    requires Residue(early, t) == Shown(Computed(early, t).value)
    ensures SeenAlike(early, late, t)
  {
    SeenStays(early, late, t);
    ShownTree(late, Computed(early, t).value);
  }

  // ---- main results -------------------------------------------------------------------------

  /** What an expression with an operator is read as: its value, if every operand is seen. */
  lemma Folding(env: Env, t: Tree, size: nat)
    requires WellFormed(Repaired(), t) && WellNamed(env) && !IsBare(t) && !DividesByZero(env, t)
    ensures Parse(Repaired(), env, Print(t), size) ==
            match Computed(env, t)
            case Known(n) => Constant(n, 0)
            case Unknown => if size == 0 then Rejected(1) else Deferred(Print(Residue(env, t)), 0)
  {
    TreeFaithful(env, t);
    ResiduePrints(env, t);
    Accepted(Repaired(), env, t);
    if Computed(env, t).Known? { ShowRoundTrip(Computed(env, t).value); }
  }

  /** The engine sees the meaning exactly if all computed operands are small. */
  lemma {:induction false} SeenMeaning(env: Env, t: Tree)
    requires WellFormed(Repaired(), t)
    ensures Computed(env, t).Known? ==> Meaning(env, t) == Computed(env, t) && SmallOperands(env, t)
    ensures Meaning(env, t).Known? && SmallOperands(env, t) ==> Computed(env, t) == Meaning(env, t)
    ensures Meaning(env, t).Known? ==> !DividesByZero(env, t)
  {
    match t
    case Atom(_) =>
    case Group(inner) => SeenMeaning(env, inner);
    case Unary(_, arg) => SeenMeaning(env, arg);
    case Binary(_, left, right, _) =>
      SeenMeaning(env, left);
      SeenMeaning(env, right);
      BinaryMeaning(env, t);
  }

  /** SeenMeaning for one tree. */
  predicate MeansSeen(env: Env, t: Tree) {
    && (Computed(env, t).Known? ==> Meaning(env, t) == Computed(env, t) && SmallOperands(env, t))
    && (Meaning(env, t).Known? && SmallOperands(env, t) ==> Computed(env, t) == Meaning(env, t))
    && (Meaning(env, t).Known? ==> !DividesByZero(env, t))
  }

  lemma BinaryMeaning(env: Env, t: Tree)
    requires t.Binary? && MeansSeen(env, t.left) && MeansSeen(env, t.right)
    ensures MeansSeen(env, t)
  {
  }

  /**
   Where every word is known and nothing is divided by 0, an expression with an operator is folded to its
   value exactly if every computed operand is below 2^63; otherwise it does not become a constant at all.
   */
  lemma KnownFolds(env: Env, t: Tree, size: nat)
    requires WellFormed(Repaired(), t) && WellNamed(env) && !IsBare(t) && Meaning(env, t).Known?
    ensures Parse(Repaired(), env, Print(t), size) == Constant(Meaning(env, t).value, 0) <==> SmallOperands(env, t)
    ensures Parse(Repaired(), env, Print(t), size).Constant? <==> SmallOperands(env, t)
  {
    SeenMeaning(env, t);
    Folding(env, t, size);
  }

  predicate Reported(p: Parsed) { !p.PastEnd? && p.errors > 0 }

  /** Two readings with the same outcome, up to the text that is left. */
  predicate Alike(a: Parsed, b: Parsed) {
    a == b || (a.Deferred? && b.Deferred? && a.errors == b.errors)
  }

  /**
   For any expression with an operator: what is left of it is read later as the expression itself would
   be, and what is folded is what it would be folded to.
   */
  lemma LaterReading(early: Env, late: Env, t: Tree, size: nat, again: nat)
    requires WellFormed(Repaired(), t) && Extends(early, late) && !IsBare(t) && size > 0
    ensures var now, direct := Parse(Repaired(), early, Print(t), size), Parse(Repaired(), late, Print(t), again);
            if DividesByZero(early, t) then Reported(now)
            else if Computed(early, t).Known? then now.Constant? && now == direct
            else
              && now.Deferred? && now.errors == 0
              && var later := Parse(Repaired(), late, now.text, again);
              if DividesByZero(late, t) then Reported(later) && Reported(direct)
              else Alike(later, direct)
  {
    TreeFaithful(early, t);
    if DividesByZero(early, t) {
      Accepted(Repaired(), early, t);
    } else {
      Folding(early, t, size);
      SeenStays(early, late, t);
      ReadAgain(early, late, t, again);
    }
  }

  lemma ReadAgain(early: Env, late: Env, t: Tree, again: nat)
    requires WellFormed(Repaired(), t) && Extends(early, late) && !IsBare(t) && !DividesByZero(early, t)
    ensures !DividesByZero(late, t) && Computed(early, t).Known? ==>
              Parse(Repaired(), late, Print(t), again) == Constant(Computed(early, t).value, 0)
    ensures var later := Parse(Repaired(), late, Print(Residue(early, t)), again);
            var direct := Parse(Repaired(), late, Print(t), again);
            Computed(early, t).Unknown? ==>
              if DividesByZero(late, t) then Reported(later) && Reported(direct)
              else Alike(later, direct)
  {
    var r := Residue(early, t);
    ResiduePrints(early, t);
    ResidueLater(early, late, t);
    SeenStays(early, late, t);
    if DividesByZero(late, t) {
      TreeFaithful(late, t);
      Accepted(Repaired(), late, t);
      TreeFaithful(late, r);
      Accepted(Repaired(), late, r);
    } else {
      Folding(late, t, again);
      if Computed(early, t).Unknown? { Folding(late, r, again); }
    }
  }

  // ---- bare words ---------------------------------------------------------------------------

  predicate IsNumeral(word: string) { word != [] && '0' <= word[0] <= '9' }

  lemma {:induction false} BareMeaning(env: Env, t: Tree)
    requires IsBare(t)
    ensures Meaning(env, t) == ParseLit(env, Word(t))
  {
    match t
    case Atom(_) =>
    case Group(inner) => BareMeaning(env, inner);
    case Unary(_, arg) => BareMeaning(env, arg);
  }

  lemma {:induction false} BareRendered(v: Variant, env: Env, t: Tree)
    requires IsBare(t)
    ensures Rendered(v, env, t) == Operand(Word(t)) && !Unresolved(v, env, t)
  {
    match t
    case Atom(_) =>
    case Group(inner) => BareRendered(v, env, inner);
    case Unary(_, arg) => BareRendered(v, env, arg);
  }

  lemma {:induction false} BareIsWord(v: Variant, t: Tree)
    requires WellFormed(v, t) && IsBare(t)
    ensures IsWord(Word(t))
  {
    match t
    case Atom(_) =>
    case Group(inner) => BareIsWord(v, inner);
    case Unary(_, arg) => BareIsWord(v, arg);
  }

  /**
   A bare word is never looked up, whether it is known by now or not: it is never left for later, and
   its constant is right exactly for numerals and for words that will stand for 0.
   */
  lemma BareWord(v: Variant, early: Env, late: Env, t: Tree, size: nat)
    requires WellFormed(v, t) && IsBare(t) && Meaning(late, t).Known?
    ensures Parse(v, early, Print(t), size).Constant? && Parse(v, early, Print(t), size).errors == 0
    ensures Parse(v, early, Print(t), size).value == Meaning(late, t).value <==>
            IsNumeral(Word(t)) || Meaning(late, t).value == 0
  {
    BareIsWord(v, t);
    BareMeaning(late, t);
    BareRendered(v, early, t);
    Accepted(v, early, t);
    if !IsNumeral(Word(t)) { assert Strtoll(Word(t)) == 0; }
  }

  // ---- partial evaluation -------------------------------------------------------------------

  /**
   Partial evaluation preserves meaning. What is left of an expression is never a constant later unless it
   is the value the expression then has; and it is that exactly if every computed operand is below 2^63.
   What is folded at once is that value, bare words excepted that are no numerals and do not stand for 0.
   */
  lemma PartialEvaluation(early: Env, late: Env, t: Tree, size: nat, again: nat)
    requires WellFormed(Repaired(), t) && Extends(early, late) && size > 0 && Meaning(late, t).Known?
    ensures var now := Parse(Repaired(), early, Print(t), size);
            && (now.Deferred? || now.Constant?) && now.errors == 0
            && (now.Deferred? ==>
                  var later := Parse(Repaired(), late, now.text, again);
                  && (later == Constant(Meaning(late, t).value, 0) <==> SmallOperands(late, t))
                  && (later.Constant? <==> SmallOperands(late, t)))
            && (now.Constant? ==>
                  (now.value == Meaning(late, t).value <==>
                   !IsBare(t) || IsNumeral(Word(t)) || Meaning(late, t).value == 0))
  {
    if IsBare(t) {
      BareIsWord(Repaired(), t);
      BareWord(Repaired(), early, late, t, size);
    } else {
      SeenMeaning(late, t);
      SeenStays(early, late, t);
      LaterReading(early, late, t, size, again);
      KnownFolds(late, t, again);
    }
  }
}
