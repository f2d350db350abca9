/**
 A text is the text of one tree only, so that the tree the expression engine reads is the tree of the text
 (src/cmpl_internal.c:70-83, 172-232).
 */
module Unique {
  import opened Expr
  import opened Yard

  // ---- a tree as its operands and operators in a row ----------------------------------------

  /** A binary operator and the operand after it: a word, a group or one with a sign. */
  datatype Rest = Rest(op: char, doubled: bool, unit: Tree)

  function First(t: Tree): Tree { if t.Binary? then First(t.left) else t }

  function Rests(t: Tree): seq<Rest> {
    if t.Binary? then Rests(t.left) + [Rest(t.op, t.doubled, First(t.right))] + Rests(t.right) else []
  }

  function Tail(rs: seq<Rest>): string {
    if rs == [] then [] else Mark(rs[0]) + (Print(rs[0].unit) + Tail(rs[1..]))
  }

  function Mark(r: Rest): string { if r.doubled then [r.op, r.op] else [r.op] }

  predicate IsUnit(v: Variant, t: Tree) { WellFormed(v, t) && !t.Binary? }

  predicate IsRest(v: Variant, r: Rest) {
    IsInfix(r.op) && (r.doubled ==> r.op == '<' || r.op == '>') && IsUnit(v, r.unit)
  }

  predicate AreRests(v: Variant, rs: seq<Rest>) { forall i | 0 <= i < |rs| :: IsRest(v, rs[i]) }

  lemma {:induction false} TailAppend(a: seq<Rest>, b: seq<Rest>)
    ensures Tail(a + b) == Tail(a) + Tail(b)
    decreases |a|
  {
    if a == [] {
      assert a + b == b;
    } else {
      assert (a + b)[1..] == a[1..] + b;
      TailAppend(a[1..], b);
    }
  }

  lemma {:induction false} InARow(v: Variant, t: Tree)
    requires WellFormed(v, t)
    ensures IsUnit(v, First(t)) && AreRests(v, Rests(t)) && Print(t) == Print(First(t)) + Tail(Rests(t))
  {
    if t.Binary? {
      InARow(v, t.left);
      InARow(v, t.right);
      var next := Rest(t.op, t.doubled, First(t.right));
      RowRests(v, t.left, next, t.right);
      TailAppend(Rests(t.left) + [next], Rests(t.right));
      TailAppend(Rests(t.left), [next]);
      OneRest(next);
      RowText(Print(First(t.left)), Tail(Rests(t.left)), Mark(next), Print(next.unit), Tail(Rests(t.right)));
    }
  }

  lemma OneRest(r: Rest)
    ensures Tail([r]) == Mark(r) + Print(r.unit)
  {
    assert Tail([r]) == Mark(r) + (Print(r.unit) + Tail([r][1..]));
  }

  lemma RowText(a: string, b: string, c: string, d: string, e: string)
    ensures (a + b) + c + (d + e) == a + (b + (c + d) + e)
  {
  }

  lemma RowRests(v: Variant, left: Tree, next: Rest, right: Tree)
    requires AreRests(v, Rests(left)) && IsRest(v, next) && AreRests(v, Rests(right))
    ensures AreRests(v, Rests(left) + [next] + Rests(right))
  {
  }

  // ---- the row tells the tree ---------------------------------------------------------------

  lemma {:induction false} RestsLevel(v: Variant, t: Tree, i: nat)
    requires WellFormed(v, t) && i < |Rests(t)|
    ensures Prec(Rests(t)[i].op) >= Level(t)
  {
    var n := |Rests(t.left)|;
    if i < n { RestsLevel(v, t.left, i); } else if i > n { RestsLevel(v, t.right, i - n - 1); }
  }

  lemma Root(t: Tree)
    requires t.Binary?
    ensures var n := |Rests(t.left)|;
            && |Rests(t)| == n + 1 + |Rests(t.right)| && Rests(t)[n] == Rest(t.op, t.doubled, First(t.right))
            && Rests(t)[..n] == Rests(t.left) && Rests(t)[n + 1..] == Rests(t.right)
  {
  }

  /** No operator binds less than the one at the root, and none after it binds as little. */
  lemma RootLeast(v: Variant, t: Tree, i: nat)
    requires WellFormed(v, t) && t.Binary? && i < |Rests(t)|
    ensures Prec(Rests(t)[i].op) >= Prec(t.op)
    ensures i > |Rests(t.left)| ==> Prec(Rests(t)[i].op) > Prec(t.op)
  {
    var n := |Rests(t.left)|;
    Root(t);
    RestsLevel(v, t, i);
    if i > n { RestsLevel(v, t.right, i - n - 1); }
  }

  lemma NotEarlier(v: Variant, t: Tree, u: Tree)
    requires WellFormed(v, t) && WellFormed(v, u) && t.Binary? && u.Binary? && Rests(t) == Rests(u)
    ensures |Rests(t.left)| >= |Rests(u.left)|
  {
    hide WellFormed, Rests, Prec;
    Root(t);
    Root(u);
    RootLeast(v, u, |Rests(t.left)|);
    RootLeast(v, t, |Rests(u.left)|);
  }

  lemma {:induction false} OneTree(v: Variant, t: Tree, u: Tree)
    requires WellFormed(v, t) && WellFormed(v, u) && First(t) == First(u) && Rests(t) == Rests(u)
    ensures t == u
  {
    if t.Binary? {
      NotEarlier(v, t, u);
      NotEarlier(v, u, t);
      Root(t);
      Root(u);
      OneTree(v, t.left, u.left);
      OneTree(v, t.right, u.right);
    }
  }

  // ---- the text tells the row ---------------------------------------------------------------

  predicate Ends(s: string) { s == [] || s[0] == ')' }

  lemma SameWord(left: string, right: string, r: string, q: string)
    requires IsWord(left) && IsWord(right) && Stops(r) && Stops(q) && left + r == right + q
    ensures left == right && r == q
  {
    WordBefore(left, r);
    WordBefore(right, q);
    Cut(left, right, r, q);
  }

  lemma Cut(a: string, b: string, r: string, q: string)
    requires a + r == b + q && |a| == |b|
    ensures a == b && r == q
  {
    assert a == (a + r)[..|a|] && b == (b + q)[..|b|];
    assert r == (a + r)[|a|..] && q == (b + q)[|b|..];
  }

  /** The first character tells a word, a group and a sign apart. */
  lemma SameSort(v: Variant, t: Tree, u: Tree, r: string, q: string)
    requires IsUnit(v, t) && IsUnit(v, u) && Print(t) + r == Print(u) + q
    ensures t.Atom? == u.Atom? && t.Group? == u.Group?
    ensures t.Unary? ==> t.op == u.op
  {
    PrintStarts(v, t);
    PrintStarts(v, u);
    assert (Print(t) + r)[0] == Print(t)[0] && (Print(u) + q)[0] == Print(u)[0];
  }

  lemma {:induction false} SameUnit(v: Variant, t: Tree, u: Tree, r: string, q: string)
    requires IsUnit(v, t) && IsUnit(v, u) && Stops(r) && Stops(q) && Print(t) + r == Print(u) + q
    ensures t == u && r == q
    decreases |Print(t)|, 0
  {
    SameSort(v, t, u, r, q);
    match t
    case Atom(word) => SameWord(word, u.word, r, q);
    case Group(inner) =>
      Regroup("(", Print(inner), ")", r);
      Regroup("(", Print(u.inner), ")", q);
      Cut("(", "(", Print(inner) + (")" + r), Print(u.inner) + (")" + q));
      SameTree(v, inner, u.inner, ")" + r, ")" + q);
      Cut(")", ")", r, q);
    case Unary(op, arg) =>
      Regroup([op], Print(arg), "", r);
      Regroup([op], Print(u.arg), "", q);
      Cut([op], [op], Print(arg) + r, Print(u.arg) + q);
      SameUnit(v, arg, u.arg, r, q);
  }

  lemma Nest(a: string, b: string, c: string, d: string)
    ensures (a + (b + c)) + d == a + (b + (c + d))
  {
  }

  lemma TailNext(rs: seq<Rest>, r: string)
    requires rs != []
    ensures Tail(rs) + r == Mark(rs[0]) + (Print(rs[0].unit) + (Tail(rs[1..]) + r))
  {
    Nest(Mark(rs[0]), Print(rs[0].unit), Tail(rs[1..]), r);
  }

  lemma TailStops(v: Variant, rs: seq<Rest>, r: string)
    requires AreRests(v, rs) && Ends(r)
    ensures Stops(Tail(rs) + r)
    ensures rs == [] <==> Ends(Tail(rs) + r)
  {
    hide Print, WellFormed, Tail;
    if rs == [] {
      NoTail(r);
    } else {
      assert IsRest(v, rs[0]);
      TailNext(rs, r);
      assert (Tail(rs) + r)[0] == Mark(rs[0])[0] == rs[0].op;
    }
  }

  lemma NoTail(r: string)
    ensures Tail([]) + r == r
  {
  }

  /** What comes after an operator does not begin with one of those that may be doubled. */
  lemma SameMark(v: Variant, a: Rest, b: Rest, more: string, rest: string)
    requires IsRest(v, a) && IsRest(v, b) && Mark(a) + (Print(a.unit) + more) == Mark(b) + (Print(b.unit) + rest)
    ensures a.op == b.op && a.doubled == b.doubled && Print(a.unit) + more == Print(b.unit) + rest
  {
    PrintStarts(v, a.unit);
    PrintStarts(v, b.unit);
    var s, s' := Mark(a) + (Print(a.unit) + more), Mark(b) + (Print(b.unit) + rest);
    assert s[0] == a.op && s'[0] == b.op;
    assert s[1] == (if a.doubled then a.op else Print(a.unit)[0]);
    assert s'[1] == (if b.doubled then b.op else Print(b.unit)[0]);
    Cut(Mark(a), Mark(b), Print(a.unit) + more, Print(b.unit) + rest);
  }

  lemma {:induction false} SameTail(v: Variant, rs: seq<Rest>, qs: seq<Rest>, r: string, q: string)
    requires AreRests(v, rs) && AreRests(v, qs) && Ends(r) && Ends(q) && Tail(rs) + r == Tail(qs) + q
    ensures rs == qs && r == q
    decreases |Tail(rs)|, 1
  {
    TailStops(v, rs, r);
    TailStops(v, qs, q);
    if rs == [] {
      NoTail(r);
      NoTail(q);
    } else {
      TailNext(rs, r);
      TailNext(qs, q);
      SameMark(v, rs[0], qs[0], Tail(rs[1..]) + r, Tail(qs[1..]) + q);
      TailStops(v, rs[1..], r);
      TailStops(v, qs[1..], q);
      SameUnit(v, rs[0].unit, qs[0].unit, Tail(rs[1..]) + r, Tail(qs[1..]) + q);
      SameTail(v, rs[1..], qs[1..], r, q);
      assert rs == [rs[0]] + rs[1..] && qs == [qs[0]] + qs[1..];
    }
  }

  lemma {:induction false} SameTree(v: Variant, t: Tree, u: Tree, r: string, q: string)
    requires WellFormed(v, t) && WellFormed(v, u) && Ends(r) && Ends(q) && Print(t) + r == Print(u) + q
    ensures t == u && r == q
    decreases |Print(t)|, 2
  {
    InARow(v, t);
    InARow(v, u);
    Regroup(Print(First(t)), Tail(Rests(t)), "", r);
    Regroup(Print(First(u)), Tail(Rests(u)), "", q);
    TailStops(v, Rests(t), r);
    TailStops(v, Rests(u), q);
    SameUnit(v, First(t), First(u), Tail(Rests(t)) + r, Tail(Rests(u)) + q);
    SameTail(v, Rests(t), Rests(u), r, q);
    OneTree(v, t, u);
  }

  // ---- main result --------------------------------------------------------------------------

  /** No two well-formed trees have the same text. */
  lemma PrintInjective(v: Variant, t: Tree, u: Tree)
    requires WellFormed(v, t) && WellFormed(v, u)
    ensures Print(t) == Print(u) <==> t == u
  {
    if Print(t) == Print(u) { SameTree(v, t, u, [], []); }
  }
}
