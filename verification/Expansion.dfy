/**
 What a run of the line stream does with macros and repeats (src/compile.c:258-299;
 src/cmpl_control.c:81-115, 155-202).
 */
module Expansion {
  import opened Substitution
  import opened Stream
  import opened Wrappers

  lemma {:induction false} StepsAdd(lib: Library, m: Machine, a: nat, b: nat)
    ensures Steps(lib, m, a + b) == Steps(lib, Steps(lib, m, a), b)
    decreases a
  {
    if a > 0 { StepsAdd(lib, Step(lib, m), a - 1, b); }
  }

  // ---- inserted lines and the lines they suspend --------------------------------------------

  /** A machine with more lines after its own. */
  function Then(m: Machine, rest: seq<Located>): Machine { m.(stream := m.stream + rest) }

  /** The machine does not run out of lines within n steps. */
  predicate Lasts(lib: Library, m: Machine, n: nat)
    decreases n
  {
    n == 0 || ((m.stream != [] || m.stopped) && Lasts(lib, Step(lib, m), n - 1))
  }

  lemma StepThen(lib: Library, m: Machine, rest: seq<Located>)
    requires m.stream != [] || m.stopped
    ensures Step(lib, Then(m, rest)) == Then(Step(lib, m), rest)
  {
    if !m.stopped {
      var at := m.stream[0];
      var next := m.(stream := m.stream[1..]);
      assert (m.stream + rest)[1..] == m.stream[1..] + rest;
      match m.capture
      case None => PlainThen(lib, next.(trace := m.trace + [at]), at, rest);
      case Some(c) => CapturedThen(next, c, at.words, rest);
    }
  }

  lemma InsertThen(m: Machine, lines: seq<Located>, rest: seq<Located>)
    ensures Then(m, rest).(stream := lines + Then(m, rest).stream) == Then(m.(stream := lines + m.stream), rest)
  {
    assert lines + (m.stream + rest) == (lines + m.stream) + rest;
  }

  lemma CallThen(m: Machine, name: string, args: seq<string>, rest: seq<Located>)
    requires name in m.macros
    ensures Call(Then(m, rest), name, args) == Then(Call(m, name, args), rest)
  {
    var macro := m.macros[name];
    if macro.Macro? && Supplied(macro.operands, args) {
      InsertThen(m, Lines(Expand(Bindings(macro.operands, args), macro.body)), rest);
    }
  }

  lemma PlainThen(lib: Library, m: Machine, at: Located, rest: seq<Located>)
    ensures PlainStep(lib, Then(m, rest), at) == Then(PlainStep(lib, m, at), rest)
  {
    hide Call, Lines;
    if !Blank(at.words) {
      var word, args := Head(at.words), Operands(at.words);
      if |args| == 1 && args[0] in lib { InsertThen(m, Lines(File(args[0], 0, lib[args[0]])), rest); }
      if word in m.macros { CallThen(m, word, args, rest); }
    }
  }

  lemma CapturedThen(m: Machine, c: Capture, l: Line, rest: seq<Located>)
    ensures CapturedStep(Then(m, rest), c, l) == Then(CapturedStep(m, c, l), rest)
  {
    if !c.kind.MacroBody? { InsertThen(m.(capture := None), Flatten(Repeats(c.symbol, Values(c), c.body)), rest); }
  }

  /** Until a machine runs out of its own lines, lines after them make no difference. */
  lemma {:induction false} StepsThen(lib: Library, m: Machine, n: nat, rest: seq<Located>)
    requires Lasts(lib, m, n)
    ensures Steps(lib, Then(m, rest), n) == Then(Steps(lib, m, n), rest)
    decreases n
  {
    if n > 0 {
      StepThen(lib, m, rest);
      StepsThen(lib, Step(lib, m), n - 1, rest);
    }
  }

  /**
   Inserted lines do what they do alone, whatever they insert, define or capture in turn; and when they
   are used up, the suspended lines go on as they were, under their own names and numbers.
   */
  lemma Inserted(lib: Library, m: Machine, lines: seq<Located>, rest: seq<Located>, n: nat)
    requires m.stream == lines + rest && Lasts(lib, m.(stream := lines), n)
    ensures Steps(lib, m, n) == Then(Steps(lib, m.(stream := lines), n), rest)
    ensures var alone := Steps(lib, m.(stream := lines), n);
            alone.stream == [] ==> Steps(lib, m, n) == alone.(stream := rest)
  {
    assert Then(m.(stream := lines), rest) == m;
    StepsThen(lib, m.(stream := lines), n, rest);
    assert [] + rest == rest;
  }

  // ---- lines outside of captures ------------------------------------------------------------

  /** A line that neither inserts lines nor opens a capture. */
  predicate Ordinary(macros: map<string, Macro>, l: Line) {
    Blank(l) ||
    var word := Head(l);
    || '=' in word
    || (word !in macros && !("." <= word))
    || ("." <= word && word !in [".include", ".macro", ".irp", ".irpc", ".if", ".ifdef", ".ifndef"])
  }

  /** Ordinary lines are met in their order; then what was suspended goes on as it was. */
  lemma {:induction false} OrdinaryRun(lib: Library, m: Machine, ls: seq<Located>, rest: seq<Located>)
    requires !m.stopped && m.capture == None && m.stream == ls + rest
    requires forall i | 0 <= i < |ls| :: Ordinary(m.macros, ls[i].words)
    ensures Steps(lib, m, |ls|) == m.(stream := rest, trace := m.trace + ls)
    decreases |ls|
  {
    if ls == [] {
      assert ls + rest == rest && m.trace + ls == m.trace;
    } else {
      assert m.stream[0] == ls[0] && m.stream[1..] == ls[1..] + rest;
      var next := Step(lib, m);
      OrdinaryStep(lib, m);
      OrdinaryRun(lib, next, ls[1..], rest);
      assert m.trace + [ls[0]] + ls[1..] == m.trace + ls;
    }
  }

  /** Ordinary lines last exactly as many steps as there are of them. */
  lemma {:induction false} OrdinaryLasts(lib: Library, m: Machine)
    requires !m.stopped && m.capture == None
    requires forall i | 0 <= i < |m.stream| :: Ordinary(m.macros, m.stream[i].words)
    ensures Lasts(lib, m, |m.stream|)
    decreases |m.stream|
  {
    if m.stream != [] {
      OrdinaryStep(lib, m);
      OrdinaryLasts(lib, Step(lib, m));
    }
  }

  lemma OrdinaryStep(lib: Library, m: Machine)
    requires !m.stopped && m.capture == None && m.stream != [] && Ordinary(m.macros, m.stream[0].words)
    ensures Step(lib, m) == m.(stream := m.stream[1..], trace := m.trace + [m.stream[0]])
  {
  }

  /** The lines that stop the reading; a capture never does. */
  predicate Stopping(lib: Library, macros: map<string, Macro>, l: Line) {
    && !Blank(l)
    && var word, args := Head(l), Operands(l);
       && '=' !in word
       && (|| (word == ".include" && !(|args| == 1 && args[0] in lib))
           || ((word == ".macro" || word == ".irp") && args == [])
           || (word == ".irpc" && |args| != 2)
           || word == ".if" || word == ".ifdef" || word == ".ifndef"
           || (!("." <= word) && word in macros && (macros[word].Headless? || !Supplied(macros[word].operands, args))))
  }

  lemma StopsIff(lib: Library, m: Machine)
    requires !m.stopped && m.stream != []
    ensures Step(lib, m).stopped <==> m.capture == None && Stopping(lib, m.macros, m.stream[0].words)
  {
  }

  // ---- captures -----------------------------------------------------------------------------

  function WordsOf(ls: seq<Located>): seq<Line> {
    if ls == [] then [] else [ls[0].words] + WordsOf(ls[1..])
  }

  /** The lines that are not blank: labels alone count as blank, and their names are lost. */
  function Kept(ls: seq<Line>): seq<Line> {
    if ls == [] then [] else (if Blank(ls[0]) then [] else [ls[0]]) + Kept(ls[1..])
  }

  /** The depth after lines, 0 once it has been reached. */
  function Depth(k: Kind, depth: nat, ls: seq<Line>): nat
    decreases |ls|
  {
    if depth == 0 || ls == [] then depth else Depth(k, Shift(k, depth, ls[0]), ls[1..])
  }

  function Collected(c: Capture, ls: seq<Line>): Capture {
    c.(depth := Depth(c.kind, c.depth, ls), body := c.body.(lines := c.body.lines + Kept(ls)))
  }

  lemma CollectedAdd(c: Capture, l: Line, ls: seq<Line>)
    requires c.depth > 0
    ensures Collected(Collected(c, [l]), ls) == Collected(c, [l] + ls)
  {
    DepthAppend(c.kind, c.depth, [l], ls);
    assert ([l] + ls)[1..] == ls && [l][1..] == [];
    assert c.body.lines + Kept([l]) + Kept(ls) == c.body.lines + Kept([l] + ls);
  }

  /** As long as the depth has not reached 0, exactly the lines that are not blank have been captured, in order. */
  lemma {:induction false} CaptureLines(lib: Library, m: Machine, c: Capture, ls: seq<Located>, rest: seq<Located>)
    requires !m.stopped && m.capture == Some(c) && c.depth > 0 && m.stream == ls + rest
    requires Depth(c.kind, c.depth, WordsOf(ls)) > 0
    ensures Steps(lib, m, |ls|) == m.(stream := rest, capture := Some(Collected(c, WordsOf(ls))))
    decreases |ls|
  {
    var words := WordsOf(ls);
    if ls == [] {
      assert ls + rest == rest && c.body.lines + Kept(words) == c.body.lines;
    } else {
      assert m.stream[0] == ls[0] && m.stream[1..] == ls[1..] + rest;
      var l := ls[0].words;
      CaptureLine(lib, m, c, l);
      CaptureLines(lib, Step(lib, m), Collected(c, [l]), ls[1..], rest);
      CollectedAdd(c, l, WordsOf(ls[1..]));
      assert words == [l] + WordsOf(ls[1..]);
    }
  }

  lemma CaptureLine(lib: Library, m: Machine, c: Capture, l: Line)
    requires !m.stopped && m.capture == Some(c) && c.depth > 0 && m.stream != [] && m.stream[0].words == l
    requires Shift(c.kind, c.depth, l) > 0
    ensures Step(lib, m) == m.(stream := m.stream[1..], capture := Some(Collected(c, [l])))
    ensures Depth(c.kind, c.depth, [l]) == Shift(c.kind, c.depth, l)
    ensures Kept([l]) == if Blank(l) then [] else [l]
  {
    KeptOne(l);
    DepthOne(c.kind, c.depth, l);
    assert c.body.lines + [] == c.body.lines;
  }

  lemma KeptOne(l: Line)
    ensures Kept([l]) == if Blank(l) then [] else [l]
  {
    var ls := [l];
    var none := ls[1..];
    assert none == [] && Kept(none) == [];
    assert Kept(ls) == (if Blank(l) then [] else [l]) + Kept(none);
    assert [l] + none == [l];
  }

  /** Lines whose blocks of the same kind are properly nested. */
  datatype Nest = Text(line: Line) | Block(open: Line, body: seq<Nest>, close: Line)

  function Unfold(ns: seq<Nest>): seq<Line> {
    if ns == [] then []
    else
      var first := match ns[0] case Text(l) => [l] case Block(open, body, close) => [open] + Unfold(body) + [close];
      first + Unfold(ns[1..])
  }

  predicate Nested(k: Kind, ns: seq<Nest>) {
    ns == [] ||
    (Nested(k, ns[1..]) &&
     match ns[0]
     case Text(l) => Blank(l) || !(Opens(k, Head(l)) || Closes(k, Head(l)))
     case Block(open, body, close) =>
       && !Blank(open) && Opens(k, Head(open)) && Nested(k, body)
       && !Blank(close) && !Opens(k, Head(close)) && Closes(k, Head(close)))
  }

  lemma {:induction false} DepthAppend(k: Kind, depth: nat, a: seq<Line>, b: seq<Line>)
    ensures Depth(k, depth, a + b) == Depth(k, Depth(k, depth, a), b)
    decreases |a|
  {
    if a == [] {
      assert a + b == b;
    } else if depth > 0 {
      assert (a + b)[1..] == a[1..] + b;
      DepthAppend(k, Shift(k, depth, a[0]), a[1..], b);
    }
  }

  lemma DepthOne(k: Kind, depth: nat, l: Line)
    requires depth > 0
    ensures Depth(k, depth, [l]) == Shift(k, depth, l)
  {
    assert [l][1..] == [];
  }

  /** Properly nested lines leave the depth where it was: only the closer of the opener brings it to 0. */
  lemma {:induction false} NestedDepth(k: Kind, depth: nat, ns: seq<Nest>)
    requires depth > 0 && Nested(k, ns)
    ensures Depth(k, depth, Unfold(ns)) == depth
    decreases ns
  {
    if ns != [] {
      NestedDepth(k, depth, ns[1..]);
      match ns[0]
      case Text(l) =>
        DepthOne(k, depth, l);
        DepthAppend(k, depth, [l], Unfold(ns[1..]));
      case Block(open, body, close) =>
        NestedDepth(k, depth + 1, body);
        BlockDepth(k, depth, open, Unfold(body), close);
        DepthAppend(k, depth, [open] + Unfold(body) + [close], Unfold(ns[1..]));
    }
  }

  lemma BlockDepth(k: Kind, depth: nat, open: Line, body: seq<Line>, close: Line)
    requires depth > 0 && Depth(k, depth + 1, body) == depth + 1
    requires !Blank(open) && Opens(k, Head(open)) && !Blank(close) && !Opens(k, Head(close)) && Closes(k, Head(close))
    ensures Depth(k, depth, [open] + body + [close]) == depth
  {
    DepthOne(k, depth, open);
    DepthOne(k, depth + 1, close);
    DepthAppend(k, depth, [open], body);
    DepthAppend(k, depth, [open] + body, [close]);
  }

  predicate Closing(k: Kind, l: Line) { !Blank(l) && Finishes(k, Head(l)) }

  /** From the first line of the body to the closer that brings the depth to 0. */
  lemma CaptureBody(lib: Library, m: Machine, c: Capture, ls: seq<Located>, close: Located, rest: seq<Located>)
    requires !m.stopped && m.capture == Some(c) && c.depth == 1 && m.stream == ls + [close] + rest
    requires Depth(c.kind, 1, WordsOf(ls)) == 1 && Closing(c.kind, close.words)
    ensures Steps(lib, m, |ls| + 1) == Finish(m.(stream := rest), Collected(c, WordsOf(ls)))
  {
    assert m.stream == ls + ([close] + rest);
    CaptureLines(lib, m, c, ls, [close] + rest);
    StepsAdd(lib, m, |ls|, 1);
    var m1 := Steps(lib, m, |ls|);
    assert m1.stream[1..] == rest;
    CloseCapture(lib, m1, Collected(c, WordsOf(ls)), close);
  }

  lemma CloseCapture(lib: Library, m: Machine, c: Capture, close: Located)
    requires !m.stopped && m.capture == Some(c) && c.depth == 1 && m.stream != [] && m.stream[0] == close
    requires Closing(c.kind, close.words)
    ensures Steps(lib, m, 1) == Finish(m.(stream := m.stream[1..]), c)
  {
    assert Steps(lib, m, 1) == Steps(lib, Step(lib, m), 0);
    assert Head(close.words)[1] == 'e';
  }

  /** A word that closes an inner block ends the capture itself only if it is the exact word. */
  lemma CloserIff(lib: Library, m: Machine, c: Capture)
    requires !m.stopped && m.capture == Some(c) && c.depth > 0 && m.stream != []
    requires !Blank(m.stream[0].words) && Closes(c.kind, Head(m.stream[0].words))
    ensures var word, next := Head(m.stream[0].words), Step(lib, m).capture;
            && (next.None? <==> c.depth == 1 && word == if c.kind.MacroBody? then ".endm" else ".endr")
            && (next.Some? ==> next.value.depth == if c.depth > 1 then c.depth - 1 else 1)
  {
    var word := Head(m.stream[0].words);
    assert word[1] == 'e' && !Opens(c.kind, word);
  }

  /** The words that open and close blocks, inside a capture of either sort. */
  lemma DepthIff(k: Kind, depth: nat, l: Line)
    requires depth > 0 && !Blank(l)
    ensures Shift(k, depth, l) == depth + 1 <==> if k.MacroBody? then Head(l) == ".macro" else ".irp" <= Head(l)
    ensures Shift(k, depth, l) == depth - 1 <==>
            (if k.MacroBody? then ".endm" else ".endr") <= Head(l) && (depth > 1 || |Head(l)| == 5)
    ensures depth - 1 <= Shift(k, depth, l) <= depth + 1
  {
    var word := Head(l);
    var end := if k.MacroBody? then ".endm" else ".endr";
    assert end[..4] == ".end" && end[4] == Letter(k) && end == ".end" + [Letter(k)];
    if Closes(k, word) { assert word[..5] == end && word[1] == 'e'; }
    if end <= word { assert word[..4] == ".end" && word[4] == end[4] && word[1] == 'e'; }
    if end <= word && |word| == 5 { assert word == end; }
  }

  /** ".endmacro" closes a macro inside a macro, but does not end the outer one. */
  lemma EndMacroWord()
    ensures Closes(MacroBody, ".endmacro") && !Finishes(MacroBody, ".endmacro")
  {
    assert ".end" + ['m'] == ".endm" && |".endm"| == 5;
  }

  /** The line that opens a capture. */
  predicate Opening(k: Kind, l: Line) {
    && !Blank(l) && Operands(l) != [] && (k.CharBody? ==> |Operands(l)| == 2)
    && Head(l) == match k case MacroBody => ".macro" case RepeatBody => ".irp" case CharBody => ".irpc"
  }

  lemma OpenCapture(lib: Library, m: Machine, k: Kind)
    requires !m.stopped && m.capture == None && m.stream != [] && Opening(k, m.stream[0].words)
    ensures Step(lib, m) == m.(stream := m.stream[1..], trace := m.trace + [m.stream[0]],
                               capture := Some(Begin(k, m.stream[0], Operands(m.stream[0].words))))
  {
  }

  /** A block of lines from an opener to the closer that balances it. */
  predicate IsBlock(k: Kind, open: Located, ls: seq<Located>, close: Located) {
    Opening(k, open.words) && Depth(k, 1, WordsOf(ls)) == 1 && Closing(k, close.words)
  }

  function Caught(k: Kind, open: Located, ls: seq<Located>): Capture
    requires Opening(k, open.words)
  {
    var c := Begin(k, open, Operands(open.words));
    c.(body := File(open.file, open.number, Kept(WordsOf(ls))))
  }

  /** A whole block is captured by as many steps as it has lines. */
  lemma BlockRun(lib: Library, m: Machine, k: Kind, open: Located, ls: seq<Located>, close: Located, rest: seq<Located>)
    requires !m.stopped && m.capture == None && m.stream == [open] + ls + [close] + rest
    requires IsBlock(k, open, ls, close)
    ensures Steps(lib, m, |ls| + 2) == Finish(m.(stream := rest, trace := m.trace + [open]), Caught(k, open, ls))
  {
    OpenCapture(lib, m, k);
    var m1 := Step(lib, m);
    assert m1.stream == ls + [close] + rest;
    CaptureBody(lib, m1, m1.capture.value, ls, close, rest);
    assert [] + Kept(WordsOf(ls)) == Kept(WordsOf(ls));
  }

  /** A macro is stored with exactly the lines between, in order, minus blank and label-only ones. */
  lemma MacroStored(lib: Library, m: Machine, open: Located, ls: seq<Located>, close: Located, rest: seq<Located>)
    requires !m.stopped && m.capture == None && m.stream == [open] + ls + [close] + rest
    requires IsBlock(MacroBody, open, ls, close)
    ensures var args := Operands(open.words);
            Steps(lib, m, |ls| + 2) ==
            m.(stream := rest, trace := m.trace + [open],
               macros := m.macros[args[0] := Macro(args[1..], File(open.file, open.number, Kept(WordsOf(ls))))])
  {
    BlockRun(lib, m, MacroBody, open, ls, close, rest);
  }

  /** One copy of a body per value, the first value first. */
  function PerValue(symbol: string, values: seq<string>, body: File): seq<Located> {
    if values == [] then []
    else Lines(SubstituteFile(symbol, values[0], body)) + PerValue(symbol, values[1..], body)
  }

  /** One copy of a body per character, the first character first. */
  function PerChar(symbol: string, chars: string, body: File): seq<Located> {
    if chars == [] then []
    else Lines(SubstituteFile(symbol, [chars[0]], body)) + PerChar(symbol, chars[1..], body)
  }

  lemma {:induction false} ValuesInOrder(symbol: string, values: seq<string>, body: File)
    ensures Flatten(Repeats(symbol, values, body)) == PerValue(symbol, values, body)
    decreases |values|
  {
    hide Lines, SubstituteFile;
    var r := Repeats(symbol, values, body);
    if values != [] {
      assert r[1..] == Repeats(symbol, values[1..], body) && r[0] == SubstituteFile(symbol, values[0], body);
      ValuesInOrder(symbol, values[1..], body);
    }
  }

  lemma {:induction false} CharsInOrder(symbol: string, chars: string, body: File)
    ensures PerValue(symbol, Singles(chars), body) == PerChar(symbol, chars, body)
    decreases |chars|
  {
    hide Lines, SubstituteFile;
    if chars != [] {
      assert Singles(chars)[0] == [chars[0]] && Singles(chars)[1..] == Singles(chars[1..]);
      CharsInOrder(symbol, chars[1..], body);
    }
  }

  /** Line i of copy c: every word of the body's line has the symbol replaced by value c. */
  predicate IsCopied(symbol: string, value: string, body: File, i: nat, at: Located)
    requires i < |body.lines|
  {
    && at.file == body.name && at.number == body.number + 1 + i && |at.words| == |body.lines[i]|
    && forall j: nat | j < |at.words| :: at.words[j] == Substitute(symbol, value, body.lines[i][j])
  }

  lemma {:induction false} CopyAt(symbol: string, values: seq<string>, body: File, c: nat, i: nat)
    requires c < |values| && i < |body.lines|
    ensures 0 <= c * |body.lines| + i < |PerValue(symbol, values, body)| == |values| * |body.lines|
    ensures IsCopied(symbol, values[c], body, i, PerValue(symbol, values, body)[c * |body.lines| + i])
    decreases c
  {
    hide IsCopied, SubstituteFile, Lines;
    var n, all, rest := |body.lines|, PerValue(symbol, values, body), PerValue(symbol, values[1..], body);
    FirstCopyAt(symbol, values[0], body, i);
    CopyCount(symbol, values, body);
    CopyCount(symbol, values[1..], body);
    NextCopy(|values|, n);
    NextCopy(c, n);
    if c == 0 {
      assert all[0 * n + i] == all[i];
    } else {
      CopyAt(symbol, values[1..], body, c - 1, i);
      assert all[c * n + i] == rest[(c - 1) * n + i];
    }
  }

  lemma NextCopy(c: nat, n: nat)
    ensures c > 0 ==> c * n == n + (c - 1) * n
  {
  }

  lemma FirstCopyAt(symbol: string, value: string, body: File, i: nat)
    requires i < |body.lines|
    ensures var copy := Lines(SubstituteFile(symbol, value, body));
            |copy| == |body.lines| && IsCopied(symbol, value, body, i, copy[i])
  {
    LineAt(SubstituteFile(symbol, value, body), i);
  }

  lemma {:induction false} CopyCount(symbol: string, values: seq<string>, body: File)
    ensures |PerValue(symbol, values, body)| == |values| * |body.lines|
    decreases |values|
  {
    if values != [] {
      LineCount(SubstituteFile(symbol, values[0], body));
      CopyCount(symbol, values[1..], body);
    }
  }

  lemma CharCopyAt(symbol: string, chars: string, body: File, c: nat, i: nat)
    requires c < |chars| && i < |body.lines|
    ensures 0 <= c * |body.lines| + i < |PerChar(symbol, chars, body)| == |chars| * |body.lines|
    ensures IsCopied(symbol, [chars[c]], body, i, PerChar(symbol, chars, body)[c * |body.lines| + i])
  {
    CharsInOrder(symbol, chars, body);
    CopyAt(symbol, Singles(chars), body, c, i);
  }

  /** The copies of a repeat: the operands after the symbol, or the characters of its one operand, in source order. */
  function Copies(k: Kind, open: Located, ls: seq<Located>): seq<Located>
    requires Opening(k, open.words)
  {
    var args, body := Operands(open.words), File(open.file, open.number, Kept(WordsOf(ls)));
    if k.CharBody? then PerChar(args[0], args[1], body) else PerValue(args[0], args[1..], body)
  }

  lemma RepeatStep(lib: Library, m: Machine, k: Kind, open: Located,
                   ls: seq<Located>, close: Located, rest: seq<Located>)
    requires !k.MacroBody? && !m.stopped && m.capture == None && m.stream == [open] + ls + [close] + rest
    requires IsBlock(k, open, ls, close)
    ensures Steps(lib, m, |ls| + 2) == m.(stream := Copies(k, open, ls) + rest, trace := m.trace + [open])
  {
    BlockRun(lib, m, k, open, ls, close, rest);
    var args, body := Operands(open.words), File(open.file, open.number, Kept(WordsOf(ls)));
    ValuesInOrder(args[0], Values(Caught(k, open, ls)), body);
    if k.CharBody? { CharsInOrder(args[0], args[1], body); }
  }

  /**
   A repeat is replaced by one copy of its body per operand, in the order of the operands. The copies
   run as they do alone, whatever they insert, and then the lines after the block go on.
   */
  lemma RepeatRun(lib: Library, m: Machine, k: Kind, open: Located,
                  ls: seq<Located>, close: Located, rest: seq<Located>, n: nat)
    requires !k.MacroBody? && !m.stopped && m.capture == None && m.stream == [open] + ls + [close] + rest
    requires IsBlock(k, open, ls, close)
    requires Lasts(lib, m.(stream := Copies(k, open, ls), trace := m.trace + [open]), n)
    ensures var alone := m.(stream := Copies(k, open, ls), trace := m.trace + [open]);
            Steps(lib, m, |ls| + 2 + n) == Then(Steps(lib, alone, n), rest)
  {
    hide Copies;
    RepeatStep(lib, m, k, open, ls, close, rest);
    StepsAdd(lib, m, |ls| + 2, n);
    Inserted(lib, m.(stream := Copies(k, open, ls) + rest, trace := m.trace + [open]), Copies(k, open, ls), rest, n);
  }

  // ---- includes -----------------------------------------------------------------------------

  /** An include is replaced by the lines of its file, which run as they do alone; then the including file goes on. */
  lemma IncludeRun(lib: Library, m: Machine, name: string, n: nat)
    requires !m.stopped && m.capture == None && m.stream != [] && !Blank(m.stream[0].words) && name in lib
    requires Head(m.stream[0].words) == ".include" && Operands(m.stream[0].words) == [name]
    requires Lasts(lib, m.(stream := Lines(File(name, 0, lib[name])), trace := m.trace + [m.stream[0]]), n)
    ensures var alone := m.(stream := Lines(File(name, 0, lib[name])), trace := m.trace + [m.stream[0]]);
            Steps(lib, m, 1 + n) == Then(Steps(lib, alone, n), m.stream[1..])
  {
    hide Lines;
    var next := Step(lib, m);
    assert next == m.(stream := Lines(File(name, 0, lib[name])) + m.stream[1..], trace := m.trace + [m.stream[0]]);
    Inserted(lib, next, Lines(File(name, 0, lib[name])), m.stream[1..], n);
  }

  // ---- macro calls --------------------------------------------------------------------------

  lemma {:induction false} ExpandWord(b: seq<Binding>, f: File, i: nat, j: nat)
    requires i < |f.lines| && j < |f.lines[i]|
    ensures var e := Expand(b, f);
            && e.name == f.name && e.number == f.number && |e.lines| == |f.lines| && |e.lines[i]| == |f.lines[i]|
            && e.lines[i][j] == Sequentially(b, f.lines[i][j])
    decreases |b|
  {
    if b != [] { ExpandWord(b[1..], SubstituteFile(b[0].name, b[0].value, f), i, j); }
  }

  predicate CallLine(m: Machine, l: Line) {
    && !Blank(l) && Head(l) in m.macros && m.macros[Head(l)].Macro?
    && '=' !in Head(l) && !("." <= Head(l))
  }

  lemma CallStep(lib: Library, m: Machine)
    requires !m.stopped && m.capture == None && m.stream != [] && CallLine(m, m.stream[0].words)
    ensures var at := m.stream[0];
            Step(lib, m) == Call(m.(stream := m.stream[1..], trace := m.trace + [at]),
                            Head(at.words), Operands(at.words))
  {
    assert !("." <= Head(m.stream[0].words));
  }

  /** Every word of an expansion has all parameters replaced at once. */
  lemma WordExpanded(b: seq<Binding>, f: File, i: nat, j: nat)
    requires Independent(b) && i < |f.lines| && j < |f.lines[i]| && Covered(b, f.lines[i][j])
    ensures var e := Expand(b, f);
            && e.name == f.name && e.number == f.number && |e.lines| == |f.lines| && |e.lines[i]| == |f.lines[i]|
            && e.lines[i][j] == Simultaneously(b, f.lines[i][j])
  {
    ExpandWord(b, f, i, j);
    SequentialIsSimultaneous(b, f.lines[i][j]);
  }

  /** The lines that a call with all its arguments inserts. */
  function Expansion(m: Machine, l: Line): seq<Located>
    requires CallLine(m, l) && Supplied(m.macros[Head(l)].operands, Operands(l))
  {
    Lines(Expand(Bindings(m.macros[Head(l)].operands, Operands(l)), m.macros[Head(l)].body))
  }

  /**
   A call with all its arguments is replaced by its expansion, which runs as it does alone, calls and
   repeats inside it included; then the calling file goes on.
   */
  lemma CallRun(lib: Library, m: Machine, n: nat)
    requires !m.stopped && m.capture == None && m.stream != [] && CallLine(m, m.stream[0].words)
    requires Supplied(m.macros[Head(m.stream[0].words)].operands, Operands(m.stream[0].words))
    requires Lasts(lib, m.(stream := Expansion(m, m.stream[0].words), trace := m.trace + [m.stream[0]]), n)
    ensures var alone := m.(stream := Expansion(m, m.stream[0].words), trace := m.trace + [m.stream[0]]);
            Steps(lib, m, 1 + n) == Then(Steps(lib, alone, n), m.stream[1..])
  {
    CallStep(lib, m);
    hide Lines, Expand;
    Inserted(lib, Step(lib, m), Expansion(m, m.stream[0].words), m.stream[1..], n);
  }

  /** A call leaves the stored definitions as they are exactly if no argument is missing. */
  lemma DefinitionKept(lib: Library, m: Machine)
    requires !m.stopped && m.capture == None && m.stream != [] && CallLine(m, m.stream[0].words)
    ensures var macro := m.macros[Head(m.stream[0].words)];
            Step(lib, m).macros == m.macros <==> Supplied(macro.operands, Operands(m.stream[0].words))
  {
    var name := Head(m.stream[0].words);
    CallStep(lib, m);
    if !Supplied(m.macros[name].operands, Operands(m.stream[0].words)) {
      assert Step(lib, m).macros[name].Headless?;
    }
  }

  /** A macro with one parameter, called without an argument, has lost it afterwards. */
  lemma MissingArgument(lib: Library, m: Machine)
    requires !m.stopped && m.capture == None && m.stream != [] && m.stream[0].words == ["m"]
    requires "m" in m.macros && m.macros["m"].Macro? && m.macros["m"].operands == ["x"]
    ensures Step(lib, m).stopped && Step(lib, m).macros["m"] == Headless(m.macros["m"].body)
  {
    assert Labels(["m"]) == 0 && Operands(["m"]) == [];
    CallStep(lib, m);
    assert !HasDefault(m.macros["m"].operands[0]);
  }
}
