/**
 What the expression engine makes of single characters, of symbols, and of texts that are no expressions
 (src/cmpl_internal.c:3-9, 84-98, 172-251).
 */
module Texts {
  import opened Numerals
  import opened Expr
  import opened Yard
  import opened Residual
  import opened Departures

  // ---- characters ---------------------------------------------------------------------------

  /** By itself a character is an operand exactly if it is one of these. */
  lemma WordCharacter(v: Variant, env: Env, c: char)
    ensures Loop(v, env, [c], Start()) == Text([c], false, 0) <==>
            || '0' <= c <= '9' || 'A' <= c <= 'Z' || 'a' <= c <= 'z'
            || c == '[' || c == '\\' || c == ']' || c == '^' || c == '_' || c == '`' || c == '.'
  {
    var s := [c];
    assert s[1..] == [];
    if IsAllowed(c) {
      Accepted(v, env, Atom(s));
    } else if IsSign(c) {
      var st := Start().(stack := Sign(c) + "");
      ReadSign(v, env, c, s[1..], Start());
      assert [c] + s[1..] == s;
      NoResult(v, env, st.work, st.stack);
    } else if c == '(' {
      assert Turn(v, env, s, Start()) == Go(State(Start().work, "(" + "", false), s[1..]);
    }
  }

  lemma {:induction false} NoResult(v: Variant, env: Env, w: Work, stack: string)
    requires w.results == []
    ensures Finish(v, env, w, stack).Failed?
    decreases |stack|
  {
    if stack != [] { NoResult(v, env, ParseOp(v, env, stack[0], w), stack[1..]); }
  }

  /** Blanks, tabs, line ends and commas before something are skipped. */
  lemma BlankSkipped(v: Variant, env: Env, c: char, s: string, st: State)
    requires (c == ' ' || c == '\t' || c == '\n' || c == ',') && s != []
    ensures Loop(v, env, [c] + s, st) == Loop(v, env, s, st)
  {
    assert ([c] + s)[1..] == s && Skip([c] + s) == Skip(s);
  }

  /** Before a numeral nothing else is without effect, but for a plus sign. */
  lemma SkippedIff(v: Variant, env: Env, c: char, five: string)
    requires five == "5"
    ensures Loop(v, env, [c] + five, Start()) == Text(five, false, 0) <==>
            c == ' ' || c == '\t' || c == '\n' || c == ',' || c == '+'
  {
    var s := [c] + five;
    assert s[1..] == five && s[0] == c;
    OneDigit(five);
    Accepted(v, env, Atom(five));
    if IsBlank(c) {
      BlankSkipped(v, env, c, five, Start());
    } else if IsAllowed(c) {
      Accepted(v, env, Atom(s));
    } else if IsSign(c) {
      Accepted(v, env, Unary(c, Atom(five)));
      if c != '+' { OtherNumber(Apply1(SignOf(c), 5)); }
    } else if c == '(' {
      OpenAlone(v, env, five);
    }
  }

  lemma OtherNumber(n: U64)
    requires n != 5
    ensures Show(n) != "5"
  {
    ShowRoundTrip(n);
    OneDigit("5");
  }

  lemma OpenAlone(v: Variant, env: Env, five: string)
    requires five == "5"
    ensures Loop(v, env, "(" + five, Start()).Failed?
  {
    var s, rest := "(" + five, "";
    assert s[1..] == five && five + rest == five;
    var st := State(Start().work, "(", false);
    assert Turn(v, env, s, Start()) == Go(st, five);
    ReadWord(v, env, five, rest, st);
  }

  // ---- symbols ------------------------------------------------------------------------------

  lemma ZeroNumeral(env: Env, zero: string)
    requires zero == "0"
    ensures IsWord(zero) && ParseLit(env, zero) == Known(0)
  {
    OneDigit(zero);
  }

  /** "." stands for the location counter. */
  lemma Here(v: Variant, env: Env, size: nat, dot: string, zero: string)
    requires dot == "." && zero == "0"
    ensures Parse(v, env, dot + ['+'] + zero, size) == Constant(env.here, 0)
  {
    ZeroNumeral(env, zero);
    ReadKnown(v, env, '+', dot, zero, size);
    assert Print(Binary('+', Atom(dot), Atom(zero), false)) == dot + ['+'] + zero;
  }

  /** A name that is neither "." nor a numeral. */
  predicate IsName(name: string) { IsWord(name) && name != "." && !('0' <= name[0] <= '9') }

  /** A symbol stands for its value exactly if it is absolute; else the expression is left for later. */
  lemma SymbolMeaning(v: Variant, env: Env, size: nat, name: string, zero: string)
    requires IsName(name) && zero == "0"
    ensures var p := Parse(v, env, name + ['+'] + zero, size);
            if name in env.symbols && env.symbols[name].Absolute? then p == Constant(env.symbols[name].value, 0)
            else if size == 0 then p == Rejected(1)
            else if v.sourceOrder then p == Deferred("(" + name + "+" + zero + ")", 0)
            else p == Deferred("(" + zero + "+" + name + ")", 0)
  {
    var t := Binary('+', Atom(name), Atom(zero), false);
    ZeroNumeral(env, zero);
    assert Print(t) == name + ['+'] + zero;
    if name in env.symbols && env.symbols[name].Absolute? {
      ReadKnown(v, env, '+', name, zero, size);
    } else {
      Accepted(v, env, t);
      PairRendered(v, env, '+', name, zero);
    }
  }

  // ---- texts that are no expressions --------------------------------------------------------

  /** Nothing at all, and a binary operator without a left operand. */
  lemma NoOperand(v: Variant, env: Env, op: char, s: string, empty: string)
    requires empty == "" && (op == '*' || op == '/' || op == '%' || op == '<' || op == '>' || op == '&' || op == '|')
    ensures Loop(v, env, empty, Start()) == Failed(1)
    ensures Loop(v, env, [op] + s, Start()) == Failed(1)
  {
    var st, text := Start(), [op] + s;
    assert Loop(v, env, empty, st) == Finish(v, env, st.work, st.stack) == Failed(1);
    assert text[0] == op && !st.lastVal && Turn(v, env, text, st) == Stop(Failed(1));
    ReadMark(v, env, text, st);
  }

  /** A binary operator without a right operand is reported twice: by itself, and for want of a result. */
  lemma NoRightOperand(v: Variant, env: Env, a: string, op: char)
    requires IsWord(a) && IsInfix(op)
    ensures Loop(v, env, a + [op], Start()) == Failed(2)
  {
    var st, rest := State(Push(Start().work, a), "", true), "";
    ReadWord(v, env, a, [op], Start());
    ReadMark(v, env, [op], st);
    assert [op][1..] == rest && Turn(v, env, [op], st) == Go(State(st.work, [op] + rest, false), rest);
    var w := ParseOp(v, env, op, st.work);
    assert w.results == [] && w.errors == 1;
    var stack := [op] + rest;
    assert stack[0] == op && stack[1..] == rest;
    assert Finish(v, env, st.work, stack) == Finish(v, env, w, rest) == Failed(2);
    assert Loop(v, env, rest, State(st.work, stack, false)) == Finish(v, env, st.work, stack);
  }

  /** Two operands without an operator between them. */
  lemma TwoWords(v: Variant, env: Env, a: string, b: string)
    requires IsWord(a) && IsWord(b)
    ensures Loop(v, env, a + " " + b, Start()) == Failed(1)
  {
    var st, rest := State(Push(Start().work, a), "", true), "";
    assert a + " " + b == a + (" " + b) && b + rest == b;
    ReadWord(v, env, a, " " + b, Start());
    BlankSkipped(v, env, ' ', b, st);
    ReadWord(v, env, b, rest, st);
  }

  /** An opening bracket too many. */
  lemma Unclosed(v: Variant, env: Env, t: Tree)
    requires WellFormed(v, t) && Rendered(v, env, t).Operand?
    ensures Loop(v, env, "(" + Print(t), Start()) == Failed(1)
  {
    var s, rest, st := "(" + Print(t), "", State(Start().work, "(", false);
    assert s[1..] == Print(t) && Print(t) + rest == Print(t);
    ReadMark(v, env, s, Start());
    assert Turn(v, env, s, Start()) == Go(st, Print(t));
    Read(v, env, t, rest, st);
    PendingLevel(v, t);
    PendingCompletes(v, env, t, st.work);
    FinishOpen(v, env, Pending(t), Done(v, env, t, st.work));
    OneResult(v, env, t, st.work);
  }

  lemma {:induction false} FinishOpen(v: Variant, env: Env, ops: string, w: Work)
    requires AtLeast(0, ops)
    ensures Finish(v, env, w, ops + "(") == Failed(ApplyAll(v, env, ops, w).errors + 1)
    decreases |ops|
  {
    if ops == [] {
      assert ops + "(" == "(";
    } else {
      assert (ops + "(")[1..] == ops[1..] + "(";
      FinishOpen(v, env, ops[1..], ParseOp(v, env, ops[0], w));
    }
  }

  /** A closing bracket too many, whatever comes after it. */
  lemma Unopened(v: Variant, env: Env, t: Tree, rest: string)
    requires WellFormed(v, t) && Rendered(v, env, t).Operand?
    ensures Loop(v, env, Print(t) + (")" + rest), Start()) == Failed(1)
  {
    hide Loop, Print, WellFormed, TreeRun, Rendered;
    var text, ops, w := ")" + rest, Pending(t), Done(v, env, t, Start().work);
    Read(v, env, t, text, Start());
    PendingLevel(v, t);
    PendingCompletes(v, env, t, Start().work);
    OneResult(v, env, t, Start().work);
    CloseFails(v, env, ops, w);
    assert ops + "" == ops;
    ClosingFails(v, env, text, After(v, env, t, Start()));
  }

  lemma ClosingFails(v: Variant, env: Env, text: string, st: State)
    requires text != [] && text[0] == ')' && Close(v, env, st.work, st.stack) == NoBracket(1)
    ensures Loop(v, env, text, st) == Failed(1)
  {
    ReadMark(v, env, text, st);
  }

  lemma {:induction false} CloseFails(v: Variant, env: Env, ops: string, w: Work)
    requires AtLeast(0, ops) && ApplyAll(v, env, ops, w).errors == 0
    ensures Close(v, env, w, ops) == NoBracket(1)
    decreases |ops|
  {
    ErrorsGrow(v, env, ops, w);
    if |ops| > 1 { CloseFails(v, env, ops[1..], ParseOp(v, env, ops[0], w)); }
  }

  lemma {:induction false} ErrorsGrow(v: Variant, env: Env, ops: string, w: Work)
    ensures ApplyAll(v, env, ops, w).errors >= w.errors
    decreases |ops|
  {
    if ops != [] { ErrorsGrow(v, env, ops[1..], ParseOp(v, env, ops[0], w)); }
  }
}
