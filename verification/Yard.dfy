/**
 The trees the shunting yard reads (src/cmpl_internal.c:172-232): precedence climbing with four
 levels, left-associative, unary prefixes binding tightest.
 */
module Yard {
  import opened Numerals
  import opened Expr

  /** Unary carries the character as written; a doubled `<` or `>` reads like the single one. */
  datatype Tree =
    | Atom(word: string)
    | Group(inner: Tree)
    | Unary(op: char, arg: Tree)
    | Binary(op: char, left: Tree, right: Tree, doubled: bool)

  function Level(t: Tree): nat {
    match t
    case Binary(op, _, _, _) => Prec(op)
    case _ => 4
  }

  predicate EndsInGroup(t: Tree) {
    match t
    case Atom(_) => false
    case Group(_) => true
    case Unary(_, arg) => EndsInGroup(arg)
    case Binary(_, _, right, _) => EndsInGroup(right)
  }

  predicate IsWord(s: string) {
    s != [] && forall i | 0 <= i < |s| :: IsAllowed(s[i])
  }

  predicate IsSign(op: char) { op == '+' || op == '-' || op == '~' || op == '!' }

  predicate IsInfix(op: char) {
    op == '*' || op == '/' || op == '%' || op == '<' || op == '>' || op == '&' || op == '|' || op == '+' || op == '-'
  }

  /**
   Trees by precedence, with words in their leaves: with groups not counting as values, no operator may
   follow a group.
   */
  predicate WellFormed(v: Variant, t: Tree) {
    match t
    case Atom(word) => IsWord(word)
    case Group(inner) => WellFormed(v, inner)
    case Unary(op, arg) => IsSign(op) && Level(arg) == 4 && WellFormed(v, arg)
    case Binary(op, left, right, doubled) =>
      && IsInfix(op) && (doubled ==> op == '<' || op == '>')
      && WellFormed(v, left) && WellFormed(v, right)
      && Level(left) >= Prec(op) && Level(right) > Prec(op)
      && (EndsInGroup(left) ==> v.groupIsValue)
  }

  function Print(t: Tree): string {
    match t
    case Atom(word) => word
    case Group(inner) => "(" + Print(inner) + ")"
    case Unary(op, arg) => [op] + Print(arg)
    case Binary(op, left, right, doubled) => Print(left) + (if doubled then [op, op] else [op]) + Print(right)
  }

  // ---- the order in which operators are applied ---------------------------------------------

  function Sign(op: char): string {
    if op == '+' then "" else if op == '-' then "_" else [op]
  }

  function ApplyAll(v: Variant, env: Env, ops: string, w: Work): Work
    decreases |ops|
  {
    if ops == [] then w else ApplyAll(v, env, ops[1..], ParseOp(v, env, ops[0], w))
  }

  /** Post-order: operands from left to right, each operator right after its own operands. */
  function TreeRun(v: Variant, env: Env, t: Tree, w: Work): Work {
    match t
    case Atom(word) => Push(w, word)
    case Group(inner) => TreeRun(v, env, inner, w)
    case Unary(op, arg) => ApplyAll(v, env, Sign(op), TreeRun(v, env, arg, w))
    case Binary(op, left, right, _) => ParseOp(v, env, op, TreeRun(v, env, right, TreeRun(v, env, left, w)))
  }

  /** The operators on the stack once the text of a tree has been read, top first. */
  function Pending(t: Tree): string {
    match t
    case Atom(_) => ""
    case Group(_) => ""
    case Unary(op, arg) => Pending(arg) + Sign(op)
    case Binary(op, _, right, _) => Pending(right) + [op]
  }

  /** The value stack by then. */
  function Done(v: Variant, env: Env, t: Tree, w: Work): Work {
    match t
    case Atom(word) => Push(w, word)
    case Group(inner) => TreeRun(v, env, inner, w)
    case Unary(_, arg) => Done(v, env, arg, w)
    case Binary(_, left, right, _) => Done(v, env, right, TreeRun(v, env, left, w))
  }

  function After(v: Variant, env: Env, t: Tree, st: State): State {
    State(Done(v, env, t, st.work), Pending(t) + st.stack, EndsInGroup(t) ==> v.groupIsValue)
  }

  lemma {:induction false} ApplyAppend(v: Variant, env: Env, a: string, b: string, w: Work)
    ensures ApplyAll(v, env, a + b, w) == ApplyAll(v, env, b, ApplyAll(v, env, a, w))
    decreases |a|
  {
    if a == [] {
      assert a + b == b;
    } else {
      assert (a + b)[1..] == a[1..] + b;
      ApplyAppend(v, env, a[1..], b, ParseOp(v, env, a[0], w));
    }
  }

  /** Applying what is pending completes the post-order. */
  lemma {:induction false} PendingCompletes(v: Variant, env: Env, t: Tree, w: Work)
    ensures ApplyAll(v, env, Pending(t), Done(v, env, t, w)) == TreeRun(v, env, t, w)
  {
    match t
    case Atom(_) =>
    case Group(_) =>
    case Unary(op, arg) =>
      ApplyAppend(v, env, Pending(arg), Sign(op), Done(v, env, arg, w));
      PendingCompletes(v, env, arg, w);
    case Binary(op, left, right, _) =>
      var w1 := TreeRun(v, env, left, w);
      ApplyAppend(v, env, Pending(right), [op], Done(v, env, right, w1));
      PendingCompletes(v, env, right, w1);
      var w2 := TreeRun(v, env, right, w1);
      assert ApplyAll(v, env, [op], w2) == ApplyAll(v, env, [op][1..], ParseOp(v, env, op, w2));
  }

  predicate AtLeast(level: nat, ops: string) {
    forall i | 0 <= i < |ops| :: ops[i] != '(' && Prec(ops[i]) >= level
  }

  lemma {:induction false} PendingLevel(v: Variant, t: Tree)
    requires WellFormed(v, t)
    ensures AtLeast(Level(t), Pending(t))
  {
    match t
    case Atom(_) =>
    case Group(_) =>
    case Unary(op, arg) => PendingLevel(v, arg);
    case Binary(op, left, right, _) => PendingLevel(v, right);
  }

  /** The stack below keeps its operators while a tree of this level is read on top of it. */
  predicate Holds(stack: string, level: nat) {
    stack == [] || stack[0] == '(' || Prec(stack[0]) < level
  }

  lemma {:induction false} UnwindPending(v: Variant, env: Env, c: char, ops: string, w: Work, stack: string)
    requires AtLeast(Prec(c), ops) && Holds(stack, Prec(c))
    ensures Unwind(v, env, c, w, ops + stack) == (ApplyAll(v, env, ops, w), stack)
    decreases |ops|
  {
    if ops == [] {
      assert ops + stack == stack;
    } else {
      assert (ops + stack)[1..] == ops[1..] + stack;
      UnwindPending(v, env, c, ops[1..], ParseOp(v, env, ops[0], w), stack);
    }
  }

  lemma {:induction false} ClosePending(v: Variant, env: Env, ops: string, w: Work, stack: string)
    requires AtLeast(0, ops)
    ensures Close(v, env, w, ops + ("(" + stack)) == Opened(ApplyAll(v, env, ops, w), stack)
    decreases |ops|
  {
    if ops == [] {
      assert ops + ("(" + stack) == "(" + stack;
    } else {
      assert (ops + ("(" + stack))[1..] == ops[1..] + ("(" + stack);
      ClosePending(v, env, ops[1..], ParseOp(v, env, ops[0], w), stack);
    }
  }

  lemma {:induction false} FinishPending(v: Variant, env: Env, ops: string, w: Work)
    requires AtLeast(0, ops)
    ensures Finish(v, env, w, ops) == Finish(v, env, ApplyAll(v, env, ops, w), "")
    decreases |ops|
  {
    if ops != [] { FinishPending(v, env, ops[1..], ParseOp(v, env, ops[0], w)); }
  }

  // ---- reading one piece of a text ----------------------------------------------------------

  /** What may follow the text of a tree: it does not lengthen its last word. */
  predicate Stops(rest: string) { rest == [] || !IsAllowed(rest[0]) }

  lemma {:induction false} WordBefore(word: string, rest: string)
    requires (forall i | 0 <= i < |word| :: IsAllowed(word[i])) && Stops(rest)
    ensures WordLength(word + rest) == |word|
    decreases |word|
  {
    if word == [] {
      assert word + rest == rest;
    } else {
      assert (word + rest)[1..] == word[1..] + rest;
      WordBefore(word[1..], rest);
    }
  }

  lemma Regroup(a: string, b: string, c: string, d: string)
    ensures (a + b + c) + d == a + (b + (c + d))
    ensures c == "" ==> (a + b) + d == a + (b + d)
  {
  }

  lemma ReadWord(v: Variant, env: Env, word: string, rest: string, st: State)
    requires IsWord(word) && Stops(rest)
    ensures Loop(v, env, word + rest, st) == Loop(v, env, rest, State(Push(st.work, word), st.stack, true))
  {
    WordBefore(word, rest);
    var s := word + rest;
    assert s[0] == word[0] && !IsBlank(s[0]);
    assert s[..|word|] == word && s[|word|..] == rest;
  }

  predicate IsMark(c: char) { !IsBlank(c) && !IsAllowed(c) }

  lemma ReadMark(v: Variant, env: Env, s: string, st: State)
    requires s != [] && IsMark(s[0])
    ensures Loop(v, env, s, st) == match Turn(v, env, s, st)
                                   case Stop(outcome) => outcome
                                   case Go(next, rest) => Loop(v, env, rest, next)
  {
  }

  lemma {:induction false} PrintStarts(v: Variant, t: Tree)
    requires WellFormed(v, t)
    ensures Print(t) != [] && Print(t)[0] != '<' && Print(t)[0] != '>'
  {
    match t
    case Atom(word) => assert IsAllowed(word[0]);
    case Group(_) =>
    case Unary(_, _) =>
    case Binary(_, left, _, _) => PrintStarts(v, left);
  }

  lemma ReadInfix(v: Variant, env: Env, op: char, doubled: bool, more: string, st: State)
    requires IsInfix(op) && (doubled ==> op == '<' || op == '>') && st.lastVal
    requires more != [] && more[0] != '<' && more[0] != '>'
    ensures var (work, stack) := Unwind(v, env, op, st.work, st.stack);
            Loop(v, env, (if doubled then [op, op] else [op]) + more, st) ==
            Loop(v, env, more, State(work, [op] + stack, false))
  {
    var s := (if doubled then [op, op] else [op]) + more;
    ReadMark(v, env, s, st);
    assert s[0] == op && s[Width(s)..] == more by {
      if doubled {
        assert s[1] == op && s[2..] == more;
      } else {
        assert s[1] == more[0] && s[1..] == more;
      }
    }
  }

  lemma ReadSign(v: Variant, env: Env, op: char, more: string, st: State)
    requires IsSign(op) && !st.lastVal
    ensures Loop(v, env, [op] + more, st) == Loop(v, env, more, st.(stack := Sign(op) + st.stack))
  {
    var s := [op] + more;
    ReadMark(v, env, s, st);
    assert s[1..] == more && (op == '+' ==> Sign(op) + st.stack == st.stack);
  }

  /** A binary operator completes the tree before it and stays pending itself. */
  lemma ReadOperator(v: Variant, env: Env, op: char, left: Tree, doubled: bool, more: string, st: State)
    requires WellFormed(v, left) && IsInfix(op) && (doubled ==> op == '<' || op == '>')
    requires Level(left) >= Prec(op) && (EndsInGroup(left) ==> v.groupIsValue) && Holds(st.stack, Prec(op))
    requires more != [] && more[0] != '<' && more[0] != '>'
    ensures Loop(v, env, (if doubled then [op, op] else [op]) + more, After(v, env, left, st)) ==
            Loop(v, env, more, State(TreeRun(v, env, left, st.work), [op] + st.stack, false))
  {
    var st1 := After(v, env, left, st);
    PendingLevel(v, left);
    ReadInfix(v, env, op, doubled, more, st1);
    UnwindPending(v, env, op, Pending(left), st1.work, st.stack);
    PendingCompletes(v, env, left, st.work);
  }

  // ---- main result --------------------------------------------------------------------------

  /** Reading the text of a tree leaves exactly its pending operators on the stack below. */
  lemma {:induction false} Read(v: Variant, env: Env, t: Tree, rest: string, st: State)
    requires WellFormed(v, t) && Stops(rest) && !st.lastVal && (t.Binary? ==> Holds(st.stack, Level(t)))
    ensures Loop(v, env, Print(t) + rest, st) == Loop(v, env, rest, After(v, env, t, st))
    decreases t, 1
  {
    match t
    case Atom(word) =>
      ReadWord(v, env, word, rest, st);
      assert "" + st.stack == st.stack;
    case Group(inner) => ReadGroup(v, env, inner, rest, st);
    case Unary(op, arg) => ReadUnary(v, env, op, arg, rest, st);
    case Binary(op, left, right, doubled) => ReadBinary(v, env, op, left, right, doubled, rest, st);
  }

  lemma {:induction false} ReadGroup(v: Variant, env: Env, inner: Tree, rest: string, st: State)
    requires WellFormed(v, inner) && !st.lastVal
    ensures Loop(v, env, Print(Group(inner)) + rest, st) == Loop(v, env, rest, After(v, env, Group(inner), st))
    decreases Group(inner), 0
  {
    var s := Print(Group(inner)) + rest;
    var st0, closing := State(st.work, "(" + st.stack, false), ")" + rest;
    ReadMark(v, env, s, st);
    assert s[1..] == Print(inner) + closing;
    Read(v, env, inner, closing, st0);
    var st1 := After(v, env, inner, st0);
    ReadMark(v, env, closing, st1);
    PendingLevel(v, inner);
    ClosePending(v, env, Pending(inner), st1.work, st.stack);
    PendingCompletes(v, env, inner, st.work);
    assert closing[1..] == rest && "" + st.stack == st.stack;
  }

  lemma {:induction false} ReadUnary(v: Variant, env: Env, op: char, arg: Tree, rest: string, st: State)
    requires WellFormed(v, Unary(op, arg)) && Stops(rest) && !st.lastVal
    ensures Loop(v, env, Print(Unary(op, arg)) + rest, st) == Loop(v, env, rest, After(v, env, Unary(op, arg), st))
    decreases Unary(op, arg), 0
  {
    Regroup([op], Print(arg), "", rest);
    ReadSign(v, env, op, Print(arg) + rest, st);
    Read(v, env, arg, rest, st.(stack := Sign(op) + st.stack));
    Regroup(Pending(arg), Sign(op), "", st.stack);
  }

  lemma {:induction false} ReadBinary(v: Variant, env: Env, op: char, left: Tree,
                                     right: Tree, doubled: bool, rest: string, st: State)
    requires WellFormed(v, Binary(op, left, right, doubled)) && Stops(rest) && !st.lastVal && Holds(st.stack, Prec(op))
    ensures var t := Binary(op, left, right, doubled);
            Loop(v, env, Print(t) + rest, st) == Loop(v, env, rest, After(v, env, t, st))
    decreases Binary(op, left, right, doubled), 0
  {
    var sign := if doubled then [op, op] else [op];
    var more := Print(right) + rest;
    var tail := sign + more;
    Regroup(Print(left), sign, Print(right), rest);
    Read(v, env, left, tail, st);
    PrintStarts(v, right);
    ReadOperator(v, env, op, left, doubled, more, st);
    var st2 := State(TreeRun(v, env, left, st.work), [op] + st.stack, false);
    Read(v, env, right, rest, st2);
    Regroup(Pending(right), [op], "", st.stack);
  }

  /** The loop runs the post-order of the tree, for every text of a well-formed tree. */
  lemma TreeOrder(v: Variant, env: Env, t: Tree)
    requires WellFormed(v, t)
    ensures Loop(v, env, Print(t), Start()) == Finish(v, env, TreeRun(v, env, t, Start().work), "")
  {
    assert Print(t) + "" == Print(t) && Pending(t) + "" == Pending(t);
    Read(v, env, t, "", Start());
    PendingLevel(v, t);
    FinishPending(v, env, Pending(t), Done(v, env, t, Start().work));
    PendingCompletes(v, env, t, Start().work);
  }
}
