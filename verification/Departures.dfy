/**
 Where the expression engine departs from the evident intent, and exactly when it matters
 (src/cmpl_internal.c:7, 86, 103, 128, 135-165, 194, 237-249).
 */
module Departures {
  import opened Division
  import opened Numerals
  import opened Shifts
  import opened BitOps
  import opened Expr
  import opened Yard
  import opened Residual

  // ---- operands are combined right with left ------------------------------------------------

  predicate Commutes(op: char) { op == '*' || op == '&' || op == '|' || op == '+' }

  /** When a shift gives the same with its operands exchanged, as far as C defines both. */
  predicate ShiftExchangeable(op: char, x: U64, y: U64)
    requires x < y < 64
  {
    if op == '<' then x == 1 && y == 2 else y < Power2(x)
  }

  /** When an operator gives the same with its operands exchanged. */
  predicate Exchangeable(op: char, a: U64, b: U64) {
    if op == '-' then a == b || a == b + TWO_63 || b == a + TWO_63
    else if op == '/' || op == '%' then a == b
    else if op == '<' || op == '>' then
      || a == b
      || (a < b < 64 && ShiftExchangeable(op, a, b))
      || (b < a < 64 && ShiftExchangeable(op, b, a))
      || ((a >= 64 || b >= 64) && Apply2(op, b, a) == Apply2(op, a, b))  // undefined in C
    else true
  }

  lemma DivisionExchange(a: nat, b: nat)
    requires a < b
    ensures a != 0 ==> Quotient(a, b) != Quotient(b, a) && Remainder(a, b) != Remainder(b, a)
  {
    if a != 0 {
      BelowDivisor(a, b);
      AtLeastDivisor(b, a);
    }
  }

  lemma ShiftIff(op: char, a: U64, b: U64)
    requires op == '<' || op == '>'
    ensures Apply2(op, b, a) == Apply2(op, a, b) <==> Exchangeable(op, a, b)
  {
    hide ShiftLeft, ShiftRight, Power2;
    if a < b < 64 {
      LeftExchange(a, b);
      RightExchange(a, b);
    } else if b < a < 64 {
      LeftExchange(b, a);
      RightExchange(b, a);
    }
  }

  lemma ExchangeIff(op: char, a: U64, b: U64)
    requires IsInfix(op)
    ensures Apply2(op, b, a) == Apply2(op, a, b) <==> Exchangeable(op, a, b)
  {
    match op
    case '*' => assert Times(a, b) == Times(b, a);
    case '<' => ShiftIff(op, a, b);
    case '>' => ShiftIff(op, a, b);
    case '&' => CombinedCommutes(op, a, b);
    case '|' => CombinedCommutes(op, a, b);
    case '/' => if a < b { DivisionExchange(a, b); } else if b < a { DivisionExchange(b, a); }
    case '%' => if a < b { DivisionExchange(a, b); } else if b < a { DivisionExchange(b, a); }
    case _ =>
  }

  /** An operator on two known words: the code is right exactly on exchangeable operands. */
  lemma SwappedOperands(env: Env, op: char, left: string, right: string, size: nat)
    requires IsInfix(op) && IsWord(left) && IsWord(right)
    requires ParseLit(env, left).Known? && ParseLit(env, right).Known?
    ensures var t := Binary(op, Atom(left), Atom(right), false);
            Parse(AsWritten(), env, Print(t), size) == Parse(Repaired(), env, Print(t), size) <==>
            Exchangeable(op, ParseLit(env, left).value, ParseLit(env, right).value)
  {
    var t := Binary(op, Atom(left), Atom(right), false);
    var a, b := ParseLit(env, left).value, ParseLit(env, right).value;
    ExchangeIff(op, a, b);
    ReadKnown(AsWritten(), env, op, left, right, size);
    ReadKnown(Repaired(), env, op, left, right, size);
  }

  lemma ReadKnown(v: Variant, env: Env, op: char, left: string, right: string, size: nat)
    requires IsInfix(op) && IsWord(left) && IsWord(right)
    requires ParseLit(env, left).Known? && ParseLit(env, right).Known?
    ensures var a, b := ParseLit(env, left).value, ParseLit(env, right).value;
            var applied := if v.sourceOrder then Apply2(op, a, b) else Apply2(op, b, a);
            var p := Parse(v, env, Print(Binary(op, Atom(left), Atom(right), false)), size);
            if applied.Value? then p == Constant(applied.n, 0) else p == Rejected(2)
  {
    var t := Binary(op, Atom(left), Atom(right), false);
    Accepted(v, env, t);
    TreeOrder(v, env, t);
    var a, b := ParseLit(env, left).value, ParseLit(env, right).value;
    var applied := if v.sourceOrder then Apply2(op, a, b) else Apply2(op, b, a);
    if applied.Value? { ShowRoundTrip(applied.n); }
  }

  /** At every operator of the tree the operands may be exchanged. */
  predicate AllExchangeable(env: Env, t: Tree) {
    match t
    case Atom(_) => true
    case Group(inner) => AllExchangeable(env, inner)
    case Unary(_, arg) => AllExchangeable(env, arg)
    case Binary(op, left, right, _) =>
      && AllExchangeable(env, left) && AllExchangeable(env, right)
      && Meaning(env, left).Known? && Meaning(env, right).Known?
      && Exchangeable(op, Meaning(env, left).value, Meaning(env, right).value)
  }

  predicate Clean(o: Outcome) { o.Text? && o.errors == 0 }

  predicate Faulty(o: Outcome) { !o.Overrun? && o.errors > 0 }

  /** The tree with the operands exchanged at every operator, and brackets to hold them together. */
  function Mirror(t: Tree): Tree {
    match t
    case Atom(_) => t
    case Group(inner) => Group(Mirror(inner))
    case Unary(op, arg) => Unary(op, Mirror(arg))
    case Binary(op, left, right, doubled) => Group(Binary(op, Mirror(right), Mirror(left), doubled))
  }

  lemma {:induction false} MirrorShape(t: Tree)
    requires WellFormed(AsWritten(), t)
    ensures WellFormed(Repaired(), Mirror(t)) && Level(Mirror(t)) == 4
    ensures IsBare(Mirror(t)) <==> IsBare(t)
  {
    match t
    case Atom(_) =>
    case Group(inner) => MirrorShape(inner);
    case Unary(_, arg) => MirrorShape(arg);
    case Binary(_, left, right, _) => MirrorShape(left); MirrorShape(right);
  }

  /** The code makes of a tree what the engine put right makes of its mirror. */
  lemma {:induction false} MirrorRendered(env: Env, t: Tree)
    ensures Rendered(AsWritten(), env, t) == Rendered(Repaired(), env, Mirror(t))
    ensures Unresolved(AsWritten(), env, t) <==> Unresolved(Repaired(), env, Mirror(t))
  {
    match t
    case Atom(_) =>
    case Group(inner) => MirrorRendered(env, inner);
    case Unary(_, arg) => MirrorRendered(env, arg);
    case Binary(op, left, right, doubled) =>
      MirrorRendered(env, left);
      MirrorRendered(env, right);
      var b := Binary(op, Mirror(right), Mirror(left), doubled);
      assert Mirror(t) == Group(b) && Rendered(Repaired(), env, Mirror(t)) == Rendered(Repaired(), env, b);
  }

  /**
   The code reads a text as the engine put right reads the mirrored text, unless that divides by 0: the
   error is then reported for both.
   */
  lemma MirrorRead(env: Env, t: Tree)
    requires WellFormed(AsWritten(), t) && WellNamed(env)
    ensures var o := Loop(AsWritten(), env, Print(t), Start());
            var mirrored := Loop(Repaired(), env, Print(Mirror(t)), Start());
            if DividesByZero(env, Mirror(t)) then Faulty(o) && Faulty(mirrored)
            else o == mirrored && Clean(o)
  {
    MirrorShape(t);
    MirrorRendered(env, t);
    TreeFaithful(env, Mirror(t));
    Accepted(AsWritten(), env, t);
    Accepted(Repaired(), env, Mirror(t));
  }

  /**
   What the code folds an expression to is the value of its mirror, if the computed operands of that are
   small; so it is right exactly if moreover the two values are the same.
   */
  lemma FoldsMirror(env: Env, t: Tree, size: nat)
    requires WellFormed(AsWritten(), t) && WellNamed(env) && !IsBare(t)
    ensures var p := Parse(AsWritten(), env, Print(t), size);
            && (forall n: U64 :: p == Constant(n, 0) <==>
                                 SmallOperands(env, Mirror(t)) && Meaning(env, Mirror(t)) == Known(n))
            && (Meaning(env, t).Known? ==>
                  (p == Constant(Meaning(env, t).value, 0) <==>
                   SmallOperands(env, Mirror(t)) && Meaning(env, Mirror(t)) == Meaning(env, t)))
  {
    MirrorShape(t);
    MirrorRead(env, t);
    SeenMeaning(env, Mirror(t));
    if !DividesByZero(env, Mirror(t)) { Folding(env, Mirror(t), size); }
  }

  lemma PairRendered(v: Variant, env: Env, op: char, left: string, right: string)
    ensures var t := Binary(op, Atom(left), Atom(right), false);
            && Rendered(v, env, t) == Combine(v, env, op, left, right) == Rendered(v, env, Group(t))
            && Unresolved(v, env, t) == Unresolved(v, env, Group(t))
            && Unresolved(v, env, t) == (ParseLit(env, left).Unknown? || ParseLit(env, right).Unknown?)
  {
    var t := Binary(op, Atom(left), Atom(right), false);
    assert Rendered(v, env, Atom(left)) == Operand(left) && Rendered(v, env, Atom(right)) == Operand(right);
    assert Rendered(v, env, Group(t)) == Rendered(v, env, t);
  }

  lemma PairFormed(op: char, left: string, right: string)
    requires IsInfix(op) && IsWord(left) && IsWord(right)
    ensures var t := Binary(op, Atom(left), Atom(right), false);
            forall v :: WellFormed(v, t) && WellFormed(v, Group(t))
  {
  }

  /** The code exchanges the operands of a text that it leaves for later twice, which is right. */
  lemma ExchangedTwice(early: Env, late: Env, op: char, left: string, right: string, size: nat, again: nat)
    requires IsInfix(op) && IsWord(left) && IsWord(right) && size > 0
    requires ParseLit(early, left).Unknown? || ParseLit(early, right).Unknown?
    ensures var text := Print(Binary(op, Atom(left), Atom(right), false));
            var now := Parse(AsWritten(), early, text, size);
            && now == Deferred("(" + right + [op] + left + ")", 0)
            && var later, direct := Parse(AsWritten(), late, now.text, again), Parse(Repaired(), late, text, again);
               later == direct || (Reported(later) && Reported(direct))
  {
    var t, r := Binary(op, Atom(left), Atom(right), false), Group(Binary(op, Atom(right), Atom(left), false));
    assert Print(r) == "(" + right + [op] + left + ")" by { GroupPrints(op, Atom(right), Atom(left)); }
    PairRendered(AsWritten(), early, op, left, right);
    PairRendered(AsWritten(), late, op, right, left);
    PairRendered(Repaired(), late, op, left, right);
    PairFormed(op, left, right);
    PairFormed(op, right, left);
    hide Rendered, Unresolved, WellFormed, Print, ParseLit, Strtoll;
    Accepted(AsWritten(), early, t);
    Accepted(AsWritten(), late, r);
    Accepted(Repaired(), late, t);
  }

  lemma {:induction false} ExchangeableMirror(env: Env, t: Tree)
    requires WellFormed(AsWritten(), t) && AllExchangeable(env, t)
    ensures Meaning(env, Mirror(t)) == Meaning(env, t)
    ensures SmallOperands(env, Mirror(t)) <==> SmallOperands(env, t)
  {
    match t
    case Atom(_) =>
    case Group(inner) => ExchangeableMirror(env, inner);
    case Unary(_, arg) => ExchangeableMirror(env, arg); MirrorShape(arg);
    case Binary(op, left, right, doubled) =>
      ExchangeableMirror(env, left);
      ExchangeableMirror(env, right);
      MirrorShape(left);
      MirrorShape(right);
      ExchangeIff(op, Meaning(env, left).value, Meaning(env, right).value);
      var b := Binary(op, Mirror(right), Mirror(left), doubled);
      assert Mirror(t) == Group(b) && Meaning(env, Mirror(t)) == Meaning(env, b);
      assert SmallOperands(env, Mirror(t)) == SmallOperands(env, b);
  }

  /** With exchangeable operands at every operator the code folds to the value the expression means. */
  lemma ExchangeableAsWritten(env: Env, t: Tree, size: nat)
    requires WellFormed(AsWritten(), t) && AllExchangeable(env, t) && WellNamed(env) && !IsBare(t)
    requires Meaning(env, t).Known?
    ensures Parse(AsWritten(), env, Print(t), size) == Constant(Meaning(env, t).value, 0) <==> SmallOperands(env, t)
  {
    ExchangeableMirror(env, t);
    FoldsMirror(env, t, size);
  }

  predicate OnlyCommutes(t: Tree) {
    match t
    case Atom(_) => true
    case Group(inner) => OnlyCommutes(inner)
    case Unary(_, arg) => OnlyCommutes(arg)
    case Binary(op, left, right, _) => Commutes(op) && OnlyCommutes(left) && OnlyCommutes(right)
  }

  lemma {:induction false} CommutingExchangeable(env: Env, t: Tree)
    requires OnlyCommutes(t) && Meaning(env, t).Known?
    ensures AllExchangeable(env, t)
  {
    match t
    case Atom(_) =>
    case Group(inner) => CommutingExchangeable(env, inner);
    case Unary(_, arg) => CommutingExchangeable(env, arg);
    case Binary(_, left, right, _) => CommutingExchangeable(env, left); CommutingExchangeable(env, right);
  }

  /** In particular with commuting operators alone. */
  lemma CommutingAsWritten(env: Env, t: Tree, size: nat)
    requires WellFormed(AsWritten(), t) && OnlyCommutes(t) && WellNamed(env) && !IsBare(t)
    requires Meaning(env, t).Known?
    ensures Parse(AsWritten(), env, Print(t), size) == Constant(Meaning(env, t).value, 0) <==> SmallOperands(env, t)
  {
    CommutingExchangeable(env, t);
    ExchangeableAsWritten(env, t, size);
  }

  // ---- a group followed by an operator ------------------------------------------------------

  /** The characters of a well-formed text. */
  predicate IsPlain(c: char) { IsAllowed(c) || c == '(' || c == ')' || IsSign(c) || IsInfix(c) }

  predicate Plain(s: string) { forall i | 0 <= i < |s| :: IsPlain(s[i]) }

  predicate PlainStack(stack: string) {
    forall i | 0 <= i < |stack| :: stack[i] == '(' || IsPrefix(stack[i]) || IsInfix(stack[i])
  }

  function Infixes(stack: string): nat {
    if stack == [] then 0 else (if IsInfix(stack[0]) then 1 else 0) + Infixes(stack[1..])
  }

  /** Values on hand less those the operators on the stack will use up. */
  function Balance(w: Work, stack: string): int { |w.results| - Infixes(stack) }

  /** What a text adds to the balance: its words less its binary operators. */
  function Net(v: Variant, s: string, lastVal: bool): int
    decreases |s|
  {
    var n := WordLength(s);
    if s == [] then 0
    else if n > 0 then 1 + Net(v, s[n..], true)
    else if s[0] == ')' then Net(v, s[1..], v.groupIsValue)
    else if s[0] == '(' || !lastVal then Net(v, s[1..], false)
    else Net(v, s[Width(s)..], false) - if IsInfix(s[0]) then 1 else 0
  }

  lemma ParseOpBalance(v: Variant, env: Env, op: char, w: Work)
    requires IsPrefix(op) || IsInfix(op)
    ensures var w' := ParseOp(v, env, op, w);
            w'.errors > w.errors ||
            (w'.errors == w.errors && |w'.results| == |w.results| - if IsInfix(op) then 1 else 0)
  {
    if IsInfix(op) && |w.results| >= 2 {
      var val1, val2 := w.results[0], w.results[1];
      NeverDropped(env, op, val1, val2);
      NeverDropped(env, op, val2, val1);
      assert |w.results[1..][1..]| == |w.results| - 2;
    }
  }

  lemma NeverDropped(env: Env, op: char, left: string, right: string)
    requires IsInfix(op)
    ensures !Fold2(env, op, left, right).Dropped?
  {
  }

  lemma PushBalance(c: char, stack: string)
    ensures Infixes([c] + stack) == (if IsInfix(c) then 1 else 0) + Infixes(stack)
  {
    assert ([c] + stack)[1..] == stack;
  }

  lemma {:induction false} FinishBalance(v: Variant, env: Env, w: Work, stack: string)
    requires PlainStack(stack) && Clean(Finish(v, env, w, stack))
    ensures w.errors == 0 && Balance(w, stack) == 1
    decreases |stack|
  {
    if stack != [] {
      FinishBalance(v, env, ParseOp(v, env, stack[0], w), stack[1..]);
      ParseOpBalance(v, env, stack[0], w);
    }
  }

  lemma {:induction false} CloseBalance(v: Variant, env: Env, w: Work, stack: string)
    requires PlainStack(stack) && Close(v, env, w, stack).Opened?
    ensures var c := Close(v, env, w, stack);
            && PlainStack(c.stack) && c.work.errors >= w.errors
            && (c.work.errors == w.errors ==> Balance(c.work, c.stack) == Balance(w, stack))
    decreases |stack|
  {
    if stack[0] != '(' {
      CloseBalance(v, env, ParseOp(v, env, stack[0], w), stack[1..]);
      ParseOpBalance(v, env, stack[0], w);
    }
  }

  lemma {:induction false} UnwindBalance(v: Variant, env: Env, c: char, w: Work, stack: string)
    requires PlainStack(stack)
    ensures var (w', stack') := Unwind(v, env, c, w, stack);
            && PlainStack(stack') && w'.errors >= w.errors
            && (w'.errors == w.errors ==> Balance(w', stack') == Balance(w, stack))
    decreases |stack|
  {
    if stack != [] && stack[0] != '(' && Prec(stack[0]) >= Prec(c) {
      UnwindBalance(v, env, c, ParseOp(v, env, stack[0], w), stack[1..]);
      ParseOpBalance(v, env, stack[0], w);
    }
  }

  /** Without errors a loop ends on one result only if the words outnumber the operators by one. */
  lemma {:induction false} LoopBalance(v: Variant, env: Env, s: string, st: State)
    requires Plain(s) && PlainStack(st.stack) && Clean(Loop(v, env, s, st))
    ensures st.work.errors == 0 && Balance(st.work, st.stack) + Net(v, s, st.lastVal) == 1
    decreases |s|
  {
    if s == [] {
      FinishBalance(v, env, st.work, st.stack);
    } else {
      assert IsPlain(s[0]) && Skip(s) == s;
      var n := WordLength(s);
      if n > 0 {
        LoopBalance(v, env, s[n..], State(Push(st.work, s[..n]), st.stack, true));
      } else {
        TurnBalance(v, env, s, st);
        var step := Turn(v, env, s, st);
        LoopBalance(v, env, step.rest, step.next);
      }
    }
  }

  lemma TurnBalance(v: Variant, env: Env, s: string, st: State)
    requires s != [] && IsPlain(s[0]) && Plain(s) && PlainStack(st.stack) && WordLength(s) == 0
    requires Turn(v, env, s, st).Go?
    ensures var step := Turn(v, env, s, st);
            && Plain(step.rest) && PlainStack(step.next.stack) && step.next.work.errors >= st.work.errors
            && (step.next.work.errors == st.work.errors ==>
                  Balance(step.next.work, step.next.stack) + Net(v, step.rest, step.next.lastVal) ==
                  Balance(st.work, st.stack) + Net(v, s, st.lastVal))
  {
    if s[0] == '(' {
      PushBalance('(', st.stack);
    } else if s[0] == ')' {
      CloseBalance(v, env, st.work, st.stack);
    } else if !st.lastVal {
      PushBalance(if s[0] == '-' then '_' else s[0], st.stack);
    } else {
      UnwindBalance(v, env, s[0], st.work, st.stack);
      PushBalance(s[0], Unwind(v, env, s[0], st.work, st.stack).1);
    }
  }

  /** How many operators of a tree follow a group. */
  function Misread(t: Tree): nat {
    match t
    case Atom(_) => 0
    case Group(inner) => Misread(inner)
    case Unary(_, arg) => Misread(arg)
    case Binary(_, left, right, _) => Misread(left) + Misread(right) + if EndsInGroup(left) then 1 else 0
  }

  lemma {:induction false} MisreadIff(t: Tree)
    requires WellFormed(Repaired(), t)
    ensures WellFormed(AsWritten(), t) <==> Misread(t) == 0
  {
    match t
    case Atom(_) =>
    case Group(inner) => MisreadIff(inner);
    case Unary(_, arg) => MisreadIff(arg);
    case Binary(_, left, right, _) => MisreadIff(left); MisreadIff(right);
  }

  lemma NetOfWord(v: Variant, word: string, rest: string, lastVal: bool)
    requires IsWord(word) && Stops(rest)
    ensures Net(v, word + rest, lastVal) == 1 + Net(v, rest, true)
  {
    WordBefore(word, rest);
    assert (word + rest)[|word|..] == rest;
  }

  /** A character that starts no word, is read singly and is no binary operator here. */
  lemma NetOfMark(v: Variant, c: char, rest: string, lastVal: bool)
    requires !IsAllowed(c) && (c == '(' || c == ')' || !lastVal)
    ensures Net(v, [c] + rest, lastVal) == Net(v, rest, c == ')' && v.groupIsValue)
  {
    assert ([c] + rest)[1..] == rest;
  }

  lemma NetStep(v: Variant, s: string)
    requires s != [] && IsInfix(s[0])
    ensures Net(v, s, true) == Net(v, s[Width(s)..], false) - 1
  {
    assert !IsAllowed(s[0]) && WordLength(s) == 0;
  }

  lemma NetOfInfix(v: Variant, op: char, doubled: bool, more: string)
    requires IsInfix(op) && (doubled ==> op == '<' || op == '>') && more != [] && more[0] != '<' && more[0] != '>'
    ensures Net(v, (if doubled then [op, op] else [op]) + more, true) == Net(v, more, false) - 1
  {
    hide Net, WordLength;
    var s := (if doubled then [op, op] else [op]) + more;
    NetStep(v, s);
    if doubled {
      assert s[1] == op && s[2..] == more;
    } else {
      assert s[1] == more[0] && s[1..] == more;
    }
  }

  lemma NetOfSign(v: Variant, op: char, doubled: bool, more: string, lastVal: bool)
    requires IsInfix(op) && (doubled ==> op == '<' || op == '>') && more != [] && more[0] != '<' && more[0] != '>'
    ensures Net(v, (if doubled then [op, op] else [op]) + more, lastVal) ==
            Net(v, more, false) - if lastVal then 1 else 0
  {
    if lastVal {
      NetOfInfix(v, op, doubled, more);
    } else if doubled {
      assert [op, op] + more == [op] + ([op] + more);
      NetOfMark(v, op, [op] + more, false);
      NetOfMark(v, op, more, false);
    } else {
      NetOfMark(v, op, more, false);
    }
  }

  /** As written, each operator after a group leaves one value too many. */
  lemma {:induction false} NetOfTree(v: Variant, t: Tree, rest: string)
    requires !v.groupIsValue && WellFormed(Repaired(), t) && Stops(rest)
    ensures Net(v, Print(t) + rest, false) == 1 + Misread(t) + Net(v, rest, !EndsInGroup(t))
    decreases t, 1
  {
    match t
    case Atom(word) => NetOfWord(v, word, rest, false);
    case Group(inner) => NetOfGroup(v, inner, rest);
    case Unary(op, arg) => NetOfUnary(v, op, arg, rest);
    case Binary(op, left, right, doubled) => NetOfBinary(v, op, left, right, doubled, rest);
  }

  lemma {:induction false} NetOfGroup(v: Variant, inner: Tree, rest: string)
    requires !v.groupIsValue && WellFormed(Repaired(), inner)
    ensures Net(v, Print(Group(inner)) + rest, false) == 1 + Misread(inner) + Net(v, rest, false)
    decreases Group(inner), 0
  {
    Regroup("(", Print(inner), ")", rest);
    NetOfMark(v, '(', Print(inner) + (")" + rest), false);
    NetOfTree(v, inner, ")" + rest);
    NetOfMark(v, ')', rest, !EndsInGroup(inner));
  }

  lemma {:induction false} NetOfUnary(v: Variant, op: char, arg: Tree, rest: string)
    requires !v.groupIsValue && WellFormed(Repaired(), Unary(op, arg)) && Stops(rest)
    ensures Net(v, Print(Unary(op, arg)) + rest, false) == 1 + Misread(arg) + Net(v, rest, !EndsInGroup(arg))
    decreases Unary(op, arg), 0
  {
    var more := Print(arg) + rest;
    assert Print(Unary(op, arg)) + rest == [op] + more;
    NetOfMark(v, op, more, false);
    NetOfTree(v, arg, rest);
  }

  lemma {:induction false} NetOfBinary(v: Variant, op: char, left: Tree, right: Tree, doubled: bool, rest: string)
    requires !v.groupIsValue && WellFormed(Repaired(), Binary(op, left, right, doubled)) && Stops(rest)
    ensures var t := Binary(op, left, right, doubled);
            Net(v, Print(t) + rest, false) == 1 + Misread(t) + Net(v, rest, !EndsInGroup(t))
    decreases Binary(op, left, right, doubled), 0
  {
    var sign := if doubled then [op, op] else [op];
    var more := Print(right) + rest;
    Regroup(Print(left), sign, Print(right), rest);
    PrintStarts(Repaired(), right);
    NetOfTree(v, left, sign + more);
    NetOfSign(v, op, doubled, more, !EndsInGroup(left));
    NetOfTree(v, right, rest);
  }

  lemma {:induction false} PrintPlain(t: Tree)
    requires WellFormed(Repaired(), t)
    ensures Plain(Print(t))
  {
    match t
    case Atom(_) =>
    case Group(inner) => PrintPlain(inner);
    case Unary(_, arg) => PrintPlain(arg);
    case Binary(_, left, right, _) => PrintPlain(left); PrintPlain(right);
  }

  lemma NetOfText(v: Variant, t: Tree, rest: string)
    requires !v.groupIsValue && WellFormed(Repaired(), t) && rest == []
    ensures Net(v, Print(t), false) == 1 + Misread(t)
  {
    NetOfTree(v, t, rest);
    assert Print(t) + rest == Print(t);
  }

  /**
   A well-formed text is read without an error exactly if no operator follows a group and nothing known is
   divided, as written by its left operand, by 0.
   */
  lemma GroupsAsWritten(env: Env, t: Tree)
    requires WellFormed(Repaired(), t)
    ensures Clean(Loop(AsWritten(), env, Print(t), Start())) <==>
            WellFormed(AsWritten(), t) && Rendered(AsWritten(), env, t).Operand?
    ensures WellNamed(env) ==>
              (Clean(Loop(AsWritten(), env, Print(t), Start())) <==>
               WellFormed(AsWritten(), t) && !DividesByZero(env, Mirror(t)))
  {
    MisreadIff(t);
    if WellFormed(AsWritten(), t) {
      Accepted(AsWritten(), env, t);
      if WellNamed(env) { MirrorRead(env, t); }
    } else if Clean(Loop(AsWritten(), env, Print(t), Start())) {
      PrintPlain(t);
      LoopBalance(AsWritten(), env, Print(t), Start());
      NetOfText(AsWritten(), t, []);
    }
  }

  /**
   What the code leaves of an expression is the residue of its mirror. Read again, it gives a number exactly
   if in it no operator follows a group and, mirrored once more, it means that number on small operands.
   */
  lemma AsWrittenLater(early: Env, late: Env, t: Tree, size: nat, again: nat)
    requires WellFormed(AsWritten(), t) && WellNamed(early) && WellNamed(late) && !IsBare(t) && size > 0
    requires !DividesByZero(early, Mirror(t)) && Computed(early, Mirror(t)).Unknown?
    ensures var r := Residue(early, Mirror(t));
            && Parse(AsWritten(), early, Print(t), size) == Deferred(Print(r), 0)
            && forall n: U64 :: Parse(AsWritten(), late, Print(r), again) == Constant(n, 0) <==>
                                WellFormed(AsWritten(), r) && SmallOperands(late, Mirror(r)) &&
                                Meaning(late, Mirror(r)) == Known(n)
  {
    var r := Residue(early, Mirror(t));
    MirrorShape(t);
    MirrorRead(early, t);
    Folding(early, Mirror(t), size);
    ResiduePrints(early, Mirror(t));
    GroupsAsWritten(late, r);
    if WellFormed(AsWritten(), r) { FoldsMirror(late, r, again); }
  }

  // ---- a blank at the end -------------------------------------------------------------------

  predicate Blanks(s: string) { forall i | 0 <= i < |s| :: IsBlank(s[i]) }

  lemma {:induction false} SkipBlanksOnly(s: string)
    requires Blanks(s)
    ensures Skip(s) == []
  {
    if s != [] { SkipBlanksOnly(s[1..]); }
  }

  /** After the text of a tree blanks take the cursor past the end, unless the last bracket is forgotten. */
  lemma OverrunIff(v: Variant, env: Env, t: Tree, blanks: string)
    requires WellFormed(v, t) && Blanks(blanks)
    ensures Loop(v, env, Print(t) + blanks, Start()).Overrun? <==>
            blanks != [] && (EndsInGroup(t) ==> v.groupIsValue)
  {
    if blanks == [] {
      assert Print(t) + blanks == Print(t);
      Accepted(v, env, t);
    } else {
      Read(v, env, t, blanks, Start());
      SkipBlanksOnly(blanks);
    }
  }

  lemma {:induction false} FinishInside(v: Variant, env: Env, w: Work, stack: string)
    ensures !Finish(v, env, w, stack).Overrun?
    decreases |stack|
  {
    if stack != [] { FinishInside(v, env, ParseOp(v, env, stack[0], w), stack[1..]); }
  }

  /** The last character stays the last while something is left. */
  predicate SameEnd(s: string, rest: string) {
    rest == [] || (s != [] && rest[|rest| - 1] == s[|s| - 1])
  }

  lemma {:induction false} SkipEnd(s: string)
    requires s != []
    ensures SameEnd(s, Skip(s)) && (Skip(s) == [] ==> IsBlank(s[|s| - 1]))
  {
    if IsBlank(s[0]) && s[1..] != [] { SkipEnd(s[1..]); }
  }

  lemma TurnEnd(v: Variant, env: Env, s: string, st: State)
    requires Turn(v, env, s, st).Go?
    ensures s != [] && SameEnd(s, Turn(v, env, s, st).rest)
  {
  }

  lemma TurnInside(v: Variant, env: Env, s: string, st: State)
    requires Turn(v, env, s, st) == Stop(Overrun)
    ensures s == []
  {
  }

  /** Whatever the text, only a blank at its end takes the cursor past it. */
  lemma {:induction false} OverrunAtBlank(v: Variant, env: Env, s: string, st: State)
    requires Loop(v, env, s, st).Overrun?
    ensures s != [] && IsBlank(s[|s| - 1])
    decreases |s|
  {
    if s == [] {
      FinishInside(v, env, st.work, st.stack);
    } else {
      SkipEnd(s);
      var r := Skip(s);
      var n := WordLength(r);
      if n > 0 {
        OverrunAtBlank(v, env, r[n..], State(Push(st.work, r[..n]), st.stack, true));
      } else {
        var step := Turn(v, env, r, st);
        if step.Go? {
          TurnEnd(v, env, r, st);
          OverrunAtBlank(v, env, step.rest, step.next);
        } else {
          TurnInside(v, env, r, st);
        }
      }
    }
  }

  // ---- words --------------------------------------------------------------------------------

  /**
   A computed operand is read back exactly below 2^63; above it prints as a negative number, which would
   have to be the name of a symbol with just that value.
   */
  lemma RereadIff(env: Env, n: U64)
    ensures ParseLit(env, Show(n)) == Known(n) <==>
            n < TWO_63 || (Show(n) in env.symbols && env.symbols[Show(n)] == Absolute(n))
  {
    ShowRoundTrip(n);
    if n >= TWO_63 { assert Show(n)[0] == '-'; }
  }

  /** '^' is a character of words, never an operator. */
  lemma CaretInWord(v: Variant, env: Env, left: string, right: string)
    requires IsWord(left) && IsWord(right)
    ensures Loop(v, env, left + "^" + right, Start()) == Text(left + "^" + right, false, 0)
  {
    Accepted(v, env, Atom(left + "^" + right));
  }

  // ---- each of them at an input -------------------------------------------------------------

  /** "5-3" is folded to -2. */
  lemma FiveMinusThree(env: Env)
    ensures Parse(AsWritten(), env, "5-3", 0) == Constant(TWO_64 - 2, 0)
    ensures Parse(Repaired(), env, "5-3", 0) == Constant(2, 0)
  {
    assert ParseLit(env, "5") == Known(5) && ParseLit(env, "3") == Known(3) by { OneDigit("5"); OneDigit("3"); }
    assert Print(Binary('-', Atom("5"), Atom("3"), false)) == "5-3";
    ReadKnown(AsWritten(), env, '-', "5", "3", 0);
    ReadKnown(Repaired(), env, '-', "5", "3", 0);
  }

  lemma OneDigit(s: string)
    requires |s| == 1 && '0' <= s[0] <= '9'
    ensures Strtoll(s) == DigitValue(s[0])
  {
    assert ReadDigits(10, s, 0) == ReadDigits(10, s[1..], DigitValue(s[0]));
    assert ReadDigits(8, s, 0) == if DigitValue(s[0]) >= 8 then 0 else ReadDigits(8, s[1..], DigitValue(s[0]));
  }

  /** "(1)+2" is not read without an error, although put right it is. */
  lemma GroupPlusTwo(env: Env, text: string)
    requires text == "(1)+2"
    ensures !Clean(Loop(AsWritten(), env, text, Start()))
    ensures Clean(Loop(Repaired(), env, text, Start()))
  {
    var one, two := Atom("1"), Atom("2");
    var t := Binary('+', Group(one), two, false);
    GroupText(t);
    WordTree(env, one);
    WordTree(env, two);
    assert WellFormed(Repaired(), Group(one)) && Rendered(Repaired(), env, Group(one)) == Operand("1");
    GroupsAsWritten(env, t);
    ReadKnown(Repaired(), env, '+', "1", "2", 0);
    Accepted(Repaired(), env, t);
  }

  lemma WordTree(env: Env, t: Tree)
    requires t.Atom? && IsWord(t.word)
    ensures WellFormed(Repaired(), t) && Rendered(Repaired(), env, t) == Operand(t.word) && Level(t) == 4
  {
  }

  lemma GroupText(t: Tree)
    requires t == Binary('+', Group(Atom("1")), Atom("2"), false)
    ensures Print(t) == "(1)+2"
  {
    assert Print(t.left) == "(" + "1" + ")";
  }

  /** 2^63 is not read back as an operand: it prints as "-9223372036854775808". */
  lemma TooLarge(env: Env)
    requires WellNamed(env)
    ensures ParseLit(env, Show(TWO_63)) == Unknown
  {
    ShownSeen(env, TWO_63);
  }

  /** "5/0" is folded to 0, while "0/5" is reported as a division by 0. */
  lemma DividedByTheLeft(env: Env)
    ensures Parse(AsWritten(), env, "5/0", 0) == Constant(0, 0)
    ensures Parse(AsWritten(), env, "0/5", 0) == Rejected(2)
  {
    assert ParseLit(env, "5") == Known(5) && ParseLit(env, "0") == Known(0) by { OneDigit("5"); OneDigit("0"); }
    assert Print(Binary('/', Atom("5"), Atom("0"), false)) == "5/0";
    assert Print(Binary('/', Atom("0"), Atom("5"), false)) == "0/5";
    assert Quotient(0, 5) == 0;
    ReadKnown(AsWritten(), env, '/', "5", "0", 0);
    ReadKnown(AsWritten(), env, '/', "0", "5", 0);
  }

  /** "5 " is read past its end. */
  lemma FiveBlank(v: Variant, env: Env, size: nat)
    ensures Parse(v, env, "5 ", size) == PastEnd
  {
    OverrunIff(v, env, Atom("5"), " ");
    assert "5" + " " == "5 ";
  }

  /** A symbol that stands for 7 gives 0 by itself. */
  lemma SevenIsZero()
    ensures Parse(AsWritten(), Env(0, map["a" := Absolute(7)]), "a", 2) == Constant(0, 0)
  {
    var env := Env(0, map["a" := Absolute(7)]);
    Accepted(AsWritten(), env, Atom("a"));
    assert Strtoll("a") == 0;
  }

  /** "5^3" is read as 5. */
  lemma FiveCaretThree(env: Env)
    ensures Parse(AsWritten(), env, "5^3", 0) == Constant(5, 0)
  {
    CaretInWord(AsWritten(), env, "5", "3");
    assert "5" + "^" + "3" == "5^3";
    var s := "5^3";
    assert ReadDigits(10, s, 0) == ReadDigits(10, s[1..], 5) == 5;
  }
}
