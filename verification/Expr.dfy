/**
 The expression engine of the assembler (src/cmpl_internal.c:3-9, 70-251): a shunting yard over two
 stacks that folds what it knows and renders the rest back to text.
 */
module Expr {
  import opened Division
  import opened Numerals
  import opened Shifts
  import opened BitOps

  /**
   Two departures of the code from what it is evidently meant to do. AsWritten() is the code: a closed
   group does not count as a value (line 194), and the right operand is combined with the left
   (lines 103, 135-162). Repaired() puts both right.
   */
  datatype Variant = Variant(groupIsValue: bool, sourceOrder: bool)

  function AsWritten(): Variant { Variant(false, false) }

  function Repaired(): Variant { Variant(true, true) }

  predicate IsBlank(c: char) { c == ' ' || c == '\t' || c == '\n' || c == ',' }

  /** The last range runs from 'A' to 'z', so '^' is a character of names. */
  predicate IsAllowed(c: char) {
    '0' <= c <= '9' || 'a' <= c <= 'z' || 'A' <= c <= 'z' || c == '_' || c == '.'
  }

  predicate IsPrefix(op: char) { op == '_' || op == '~' || op == '!' }

  function Prec(op: char): nat {
    if IsPrefix(op) then 4
    else if op == '*' || op == '/' || op == '%' then 3
    else if op == '<' || op == '>' then 2
    else if op == '&' || op == '|' || op == '^' then 1
    else 0
  }

  // ---- operands ----------------------------------------------------------------------------

  datatype Symbol = Absolute(value: U64) | Relocatable

  datatype Env = Env(here: U64, symbols: map<string, Symbol>)

  datatype Literal = Known(value: U64) | Unknown

  function ParseLit(env: Env, text: string): Literal {
    if text == "." then Known(env.here)
    else if text != [] && '0' <= text[0] <= '9' then Known(ToU64(Strtoll(text)))
    else if text in env.symbols && env.symbols[text].Absolute? then Known(env.symbols[text].value)
    else Unknown
  }

  // ---- operators ---------------------------------------------------------------------------

  datatype Applied = Value(n: U64) | ZeroDivisor | NotAnOperator

  function Apply1(op: char, a: U64): U64 {
    if op == '_' then (if a == 0 then 0 else TWO_64 - a)
    else if op == '~' then TWO_64 - 1 - a
    else if a == 0 then 1 else 0
  }

  function Apply2(op: char, a: U64, b: U64): Applied {
    match op
    case '*' => Value(Remainder(Times(a, b), TWO_64))
    case '/' => if b == 0 then ZeroDivisor else Value(Quotient(a, b))
    case '%' => if b == 0 then ZeroDivisor else Value(Remainder(a, b))
    case '<' => Value(ShiftLeft(a, b))
    case '>' => Value(ShiftRight(a, b))
    case '&' => Value(Bitwise(op, a, b))
    case '|' => Value(Bitwise(op, a, b))
    case '^' => Value(Bitwise(op, a, b))
    case '+' => Value(if a + b < TWO_64 then a + b else a + b - TWO_64)
    case '-' => Value(if a >= b then a - b else a + TWO_64 - b)
    case _ => NotAnOperator
  }

  /** Sums, differences and complements are taken modulo 2^64; `!` tells whether a value is 0. */
  lemma WrapAround(a: U64, b: U64)
    ensures Apply2('+', a, b) == Value((a + b) % TWO_64) && Apply2('-', a, b) == Value((a - b) % TWO_64)
    ensures Apply1('_', a) == (0 - a) % TWO_64 && Apply1('~', a) == (-1 - a) % TWO_64
    ensures Apply1('!', a) == if a == 0 then 1 else 0
  {
  }

  lemma ProductMeaning(a: U64, b: U64)
    ensures Apply2('*', a, b) == Value((a * b) % TWO_64)
  {
  }

  /** Quotient and remainder make up the dividend. */
  lemma DivisionMeaning(a: U64, b: U64)
    requires b != 0
    ensures b * Apply2('/', a, b).n + Apply2('%', a, b).n == a && Apply2('%', a, b).n < b
  {
    assert b * (a / b) + a % b == a;
  }

  /** A count below 64 multiplies by its power of two modulo 2^64, or divides by it. */
  lemma ShiftMeaning(a: U64, b: U64)
    requires b < 64
    ensures Apply2('<', a, b) == Value(Remainder(Times(a, Power2(b)), TWO_64))
    ensures Apply2('>', a, b) == Value(Quotient(a, Power2(b)))
  {
    CountBelow64(a, b);
  }

  /** Each bit of the result is that of `&`, `|` or `^` on the bits of the operands. */
  lemma BitMeaning(a: U64, b: U64, i: nat)
    ensures Bit(Apply2('&', a, b).n, i) <==> Bit(a, i) && Bit(b, i)
    ensures Bit(Apply2('|', a, b).n, i) <==> Bit(a, i) || Bit(b, i)
    ensures Bit(Apply2('^', a, b).n, i) <==> Bit(a, i) != Bit(b, i)
  {
    CombinedBit('&', a, b, i);
    CombinedBit('|', a, b, i);
    CombinedBit('^', a, b, i);
  }

  /** What an operator leaves on the value stack in place of its operands. */
  datatype Folded = Operand(text: string) | Divided | Dropped

  function Fold1(env: Env, op: char, val: string): string {
    match ParseLit(env, val)
    case Known(a) => Show(Apply1(op, a))
    case Unknown => [if op == '_' then '-' else op] + val
  }

  function Fold2(env: Env, op: char, left: string, right: string): Folded {
    if ParseLit(env, left).Unknown? || ParseLit(env, right).Unknown? then
      Operand("(" + left + [op] + right + ")")
    else
      match Apply2(op, ParseLit(env, left).value, ParseLit(env, right).value)
      case Value(n) => Operand(Show(n))
      case ZeroDivisor => Divided
      case NotAnOperator => Dropped
  }

  /** The value stack, top first; whether an unknown operand was met; the errors reported. */
  datatype Work = Work(results: seq<string>, unresolved: bool, errors: nat)

  function Push(w: Work, text: string): Work { w.(results := [text] + w.results) }

  function ParseOp(v: Variant, env: Env, op: char, w: Work): Work {
    if w.results == [] then w.(errors := w.errors + 1)
    else
      var val1, rest := w.results[0], w.results[1..];
      var unresolved1 := w.unresolved || ParseLit(env, val1).Unknown?;
      if IsPrefix(op) then Work([Fold1(env, op, val1)] + rest, unresolved1, w.errors)
      else if rest == [] then Work([], unresolved1, w.errors + 1)
      else
        var val2 := rest[0];
        var unresolved := unresolved1 || ParseLit(env, val2).Unknown?;
        var folded := if v.sourceOrder then Fold2(env, op, val2, val1) else Fold2(env, op, val1, val2);
        match folded
        case Operand(text) => Work([text] + rest[1..], unresolved, w.errors)
        case Divided => Work(rest[1..], unresolved, w.errors + 1)
        case Dropped => Work(rest[1..], unresolved, w.errors)
  }

  // ---- the loop ----------------------------------------------------------------------------

  datatype State = State(work: Work, stack: string, lastVal: bool)

  function Start(): State { State(Work([], false, 0), "", false) }

  /** Overrun: the cursor is moved past the end of the text, which is then read on. */
  datatype Outcome = Text(text: string, unresolved: bool, errors: nat) | Failed(errors: nat) | Overrun

  function Skip(s: string): (r: string)
    ensures |r| <= |s|
  {
    if s != [] && IsBlank(s[0]) then Skip(s[1..]) else s
  }

  function WordLength(s: string): (n: nat)
    ensures n <= |s|
  {
    if s != [] && IsAllowed(s[0]) then 1 + WordLength(s[1..]) else 0
  }

  /** The operators a binary operator applies before it is pushed. */
  function Unwind(v: Variant, env: Env, c: char, w: Work, stack: string): (Work, string)
    decreases |stack|
  {
    if stack == [] || stack[0] == '(' || Prec(stack[0]) < Prec(c) then (w, stack)
    else Unwind(v, env, c, ParseOp(v, env, stack[0], w), stack[1..])
  }

  datatype Closed = Opened(work: Work, stack: string) | NoBracket(errors: nat)

  function Close(v: Variant, env: Env, w: Work, stack: string): Closed
    decreases |stack|
  {
    if stack == [] then NoBracket(w.errors + 1)
    else if stack[0] == '(' then Opened(w, stack[1..])
    else if |stack| == 1 then NoBracket(w.errors + 1)
    else Close(v, env, ParseOp(v, env, stack[0], w), stack[1..])
  }

  function Finish(v: Variant, env: Env, w: Work, stack: string): Outcome
    decreases |stack|
  {
    if stack == [] then
      if |w.results| == 1 then Text(w.results[0], w.unresolved, w.errors) else Failed(w.errors + 1)
    else if stack[0] == '(' then Failed(w.errors + 1)
    else Finish(v, env, ParseOp(v, env, stack[0], w), stack[1..])
  }

  function Width(s: string): nat
    requires s != []
  {
    if |s| >= 2 && (s[0] == '<' || s[0] == '>') && s[1] == s[0] then 2 else 1
  }

  datatype Step = Go(next: State, rest: string) | Stop(outcome: Outcome)

  /** One turn of the loop at a character that starts no word. */
  function Turn(v: Variant, env: Env, s: string, st: State): (step: Step)
    ensures step.Go? ==> |step.rest| < |s|
  {
    if s == [] then Stop(if st.lastVal then Overrun else Failed(st.work.errors + 1))
    else if s[0] == '(' then Go(State(st.work, "(" + st.stack, false), s[1..])
    else if s[0] == ')' then
      match Close(v, env, st.work, st.stack)
      case NoBracket(errors) => Stop(Failed(errors))
      case Opened(work, stack) => Go(State(work, stack, v.groupIsValue), s[1..])
    else if !st.lastVal then
      if s[0] == '+' then Go(st, s[1..])
      else if s[0] == '-' then Go(st.(stack := "_" + st.stack), s[1..])
      else if s[0] == '~' || s[0] == '!' then Go(st.(stack := [s[0]] + st.stack), s[1..])
      else Stop(Failed(st.work.errors + 1))
    else
      var (work, stack) := Unwind(v, env, s[0], st.work, st.stack);
      Go(State(work, [s[0]] + stack, false), s[Width(s)..])
  }

  function Loop(v: Variant, env: Env, s: string, st: State): Outcome
    decreases |s|
  {
    if s == [] then Finish(v, env, st.work, st.stack)
    else
      var r := Skip(s);
      var n := WordLength(r);
      if n > 0 then Loop(v, env, r[n..], State(Push(st.work, r[..n]), st.stack, true))
      else
        match Turn(v, env, r, st)
        case Stop(outcome) => outcome
        case Go(next, rest) => Loop(v, env, rest, next)
  }

  // ---- the loops over the cursor and the two stacks ----------------------------------------

  method SkipBlanks(expr: string, from: nat) returns (i: nat)
    requires from <= |expr|
    ensures from <= i <= |expr| && expr[i..] == Skip(expr[from..])
  {
    i := from;
    while i < |expr| && IsBlank(expr[i])
      invariant from <= i <= |expr|
      invariant Skip(expr[i..]) == Skip(expr[from..])
    {
      assert expr[i..][1..] == expr[i + 1..];
      i := i + 1;
    }
  }

  method SkipWord(expr: string, from: nat) returns (i: nat)
    requires from <= |expr|
    ensures from <= i <= |expr| && i - from == WordLength(expr[from..])
  {
    i := from;
    while i < |expr| && IsAllowed(expr[i])
      invariant from <= i <= |expr|
      invariant WordLength(expr[from..]) == i - from + WordLength(expr[i..])
    {
      assert expr[i..][1..] == expr[i + 1..];
      i := i + 1;
    }
  }

  method CloseGroup(v: Variant, env: Env, work0: Work, stack0: string) returns (closed: Closed)
    ensures closed == Close(v, env, work0, stack0)
  {
    var work, stack := work0, stack0;
    while stack != [] && stack[0] != '('
      invariant Close(v, env, work, stack) == Close(v, env, work0, stack0)
      decreases |stack|
    {
      if |stack| == 1 { return NoBracket(work.errors + 1); }
      work, stack := ParseOp(v, env, stack[0], work), stack[1..];
    }
    closed := if stack == [] then NoBracket(work.errors + 1) else Opened(work, stack[1..]);
  }

  method UnwindStack(v: Variant, env: Env, c: char, work0: Work, stack0: string) returns (work: Work, stack: string)
    ensures (work, stack) == Unwind(v, env, c, work0, stack0)
  {
    work, stack := work0, stack0;
    while stack != [] && stack[0] != '(' && Prec(stack[0]) >= Prec(c)
      invariant Unwind(v, env, c, work, stack) == Unwind(v, env, c, work0, stack0)
      decreases |stack|
    {
      work, stack := ParseOp(v, env, stack[0], work), stack[1..];
    }
  }

  method FinishStack(v: Variant, env: Env, work0: Work, stack0: string) returns (o: Outcome)
    ensures o == Finish(v, env, work0, stack0)
  {
    var work, stack := work0, stack0;
    while stack != []
      invariant Finish(v, env, work, stack) == Finish(v, env, work0, stack0)
      decreases |stack|
    {
      if stack[0] == '(' { return Failed(work.errors + 1); }
      work, stack := ParseOp(v, env, stack[0], work), stack[1..];
    }
    o := if |work.results| == 1 then Text(work.results[0], work.unresolved, work.errors) else Failed(work.errors + 1);
  }

  /** The branches at a character that starts no word; `i` is the cursor after them. */
  method Operator(v: Variant, env: Env, expr: string, at: nat, st: State)
    returns (stop: bool, o: Outcome, next: State, i: nat)
    requires at < |expr|
    ensures at < i <= |expr|
    ensures Turn(v, env, expr[at..], st) == if stop then Stop(o) else Go(next, expr[i..])
  {
    var c, work, stack, lastVal := expr[at], st.work, st.stack, false;
    stop, o, next, i := false, Overrun, st, at + 1;
    if c == '(' {
      stack := "(" + stack;
    } else if c == ')' {
      var closed := CloseGroup(v, env, work, stack);
      match closed {
        case NoBracket(errors) => stop, o := true, Failed(errors);
        case Opened(w, s) => work, stack, lastVal := w, s, v.groupIsValue;
      }
    } else if !st.lastVal {
      match c {
        case '+' =>
        case '-' => stack := "_" + stack;
        case '~' => stack := "~" + stack;
        case '!' => stack := "!" + stack;
        case _ => stop, o := true, Failed(work.errors + 1);
      }
    } else {
      work, stack := UnwindStack(v, env, c, work, stack);
      if (c == '<' || c == '>') && at + 1 < |expr| && expr[at + 1] == c { i := i + 1; }
      stack := [c] + stack;
    }
    next := State(work, stack, lastVal);
    assert expr[at..][1..] == expr[at + 1..];
    if at + 1 < |expr| { assert expr[at..][2..] == expr[at + 2..]; }
  }

  /** _parse_expr. */
  method ParseExpr(v: Variant, env: Env, expr: string) returns (o: Outcome)
    ensures o == Loop(v, env, expr, Start())
  {
    var i, st := 0, Start();
    while i < |expr|
      invariant 0 <= i <= |expr|
      invariant Loop(v, env, expr[i..], st) == Loop(v, env, expr, Start())
    {
      var start := SkipBlanks(expr, i);
      var end := SkipWord(expr, start);
      if start != end {
        assert expr[start..][..end - start] == expr[start..end] && expr[start..][end - start..] == expr[end..];
        i, st := end, State(Push(st.work, expr[start..end]), st.stack, true);
      } else {
        if start == |expr| { return if st.lastVal then Overrun else Failed(st.work.errors + 1); }
        var stop, outcome, next, after := Operator(v, env, expr, start, st);
        if stop { return outcome; }
        i, st := after, next;
      }
    }
    assert expr[i..] == [];
    o := FinishStack(v, env, st.work, st.stack);
  }

  /** helper_expr_parse: a constant, or a text left for later at a slot of the given size. */
  datatype Parsed = Constant(value: U64, errors: nat) | Deferred(text: string, errors: nat)
    | Rejected(errors: nat) | PastEnd

  function Parse(v: Variant, env: Env, expr: string, size: nat): Parsed {
    match Loop(v, env, expr, Start())
    case Overrun => PastEnd
    case Failed(errors) => Rejected(errors)
    case Text(text, unresolved, errors) =>
      if !unresolved then Constant(ToU64(Strtoll(text)), errors)
      else if size == 0 then Rejected(errors + 1)
      else Deferred(text, errors)
  }
}
