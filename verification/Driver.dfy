/**
 The driver loop over its stack of files, with headers shifted off and pushed back
 (src/compile.c:90-105, 144-151, 167, 258-305; src/cmpl_control.c:3-79, 94-121, 155-202).
 */
module Driver {
  import opened Substitution
  import opened Stream
  import opened Wrappers

  /** A list on the stack: under its header, or the one being read with the header shifted off. */
  datatype Listing = Parked(file: File) | Active(lines: seq<Line>)

  function Reverse(s: seq<string>): (r: seq<string>)
    ensures |r| == |s|
  {
    if s == [] then [] else Reverse(s[1..]) + [s[0]]
  }

  function Files(stack: seq<Listing>): seq<File>
    requires forall i: nat | i < |stack| :: stack[i].Parked?
  {
    seq(|stack|, i requires 0 <= i < |stack| => stack[i].file)
  }

  lemma FlattenFront(f: File, rest: seq<File>)
    ensures Flatten([f] + rest) == Lines(f) + Flatten(rest)
  {
    assert ([f] + rest)[1..] == rest;
  }

  lemma FlattenLine(f: File, rest: seq<File>)
    requires f.lines != []
    ensures Flatten([f] + rest) ==
            [Located(f.name, f.number + 1, f.lines[0])] + Flatten([File(f.name, f.number + 1, f.lines[1..])] + rest)
  {
    var first, left := [Located(f.name, f.number + 1, f.lines[0])], File(f.name, f.number + 1, f.lines[1..]);
    FlattenFront(f, rest);
    FlattenFront(left, rest);
    assert Lines(f) == first + Lines(left);
    hide *;
    assert (first + Lines(left)) + Flatten(rest) == first + (Lines(left) + Flatten(rest));
  }

  method SubstituteFileByPasses(what: string, with: string, f: File) returns (r: File)
    ensures r == SubstituteFile(what, with, f)
  {
    var lines: seq<Line> := [];
    for i := 0 to |f.lines|
      invariant lines == SubstituteLines(what, with, f.lines)[..i]
    {
      var line: Line := [];
      for j := 0 to |f.lines[i]|
        invariant line == SubstituteLine(what, with, f.lines[i])[..j]
      {
        var word := SubstituteWord(what, with, f.lines[i][j]);
        line := line + [word[..word.Length - 1]];
      }
      assert line == SubstituteLine(what, with, f.lines[i]);
      lines := lines + [line];
    }
    r := File(f.name, f.number, lines);
  }

  method CountLabels(l: Line) returns (n: nat)
    ensures n == Labels(l)
  {
    n := 0;
    while n < |l| && IsLabel(l[n])
      invariant n <= |l| && Labels(l) == n + Labels(l[n..])
    {
      assert l[n..][1..] == l[n + 1..];
      n := n + 1;
    }
  }

  /** The stack of suspended files, and the name and number of the line read last. */
  class FileStack {
    var files: seq<Listing>
    var file: string
    var line: nat

    constructor (f: File)
      ensures Valid() && Stream() == Lines(f)
    {
      files, file, line := [Parked(f)], "", 0;
      new;
      assert Files(files) == [f] + [];
      FlattenFront(f, []);
      assert Lines(f) + [] == Lines(f);
    }

    /** Only the first list can be without its header. */
    ghost predicate Valid()
      reads this
    {
      forall i: nat | 0 < i < |files| :: files[i].Parked?
    }

    ghost predicate Open()
      reads this
    {
      files != [] && files[0].Active?
    }

    /** What is left of the list being read stands under the current name and line number. */
    ghost function Pending(): seq<File>
      reads this
      requires Valid()
    {
      if Open() then [File(file, line, files[0].lines)] + Files(files[1..]) else Files(files)
    }

    ghost function Stream(): seq<Located>
      reads this
      requires Valid()
    {
      Flatten(Pending())
    }

    method ShiftHeader()
      requires Valid() && files != []
      modifies this
      ensures Valid() && Open() && |files| == old(|files|) && Pending() == old(Pending())
    {
      ghost var was := Pending();
      match files[0] {
        case Parked(f) =>
          file, line := f.name, f.number;
          files := [Active(f.lines)] + files[1..];
          assert Pending() == was;
        case Active(_) =>
      }
    }

    /** The two outer loops: shift off headers, read lines, drop lists that are used up. */
    method NextLine() returns (more: bool, words: Line)
      requires Valid()
      modifies this
      ensures Valid()
      ensures !more ==> old(Stream()) == [] && Stream() == []
      ensures more ==> Open() && old(Stream()) == [Located(file, line, words)] + Stream()
    {
      while files != []
        invariant Valid() && Stream() == old(Stream())
        decreases |files|
      {
        ShiftHeader();
        if files[0].lines != [] {
          words := ShiftLine();
          return true, words;
        }
        DropFile();
      }
      more, words := false, [];
    }

    method ShiftLine() returns (words: Line)
      requires Valid() && Open() && files[0].lines != []
      modifies this`files, this`line
      ensures Valid() && Open() && old(Stream()) == [Located(file, line, words)] + Stream()
    {
      ghost var rest := Files(files[1..]);
      var lines := files[0].lines;
      FlattenLine(File(file, line, lines), rest);
      words := lines[0];
      line := line + 1;
      files := [Active(lines[1..])] + files[1..];
      assert Files(files[1..]) == rest;
    }

    method DropFile()
      requires Valid() && Open() && files[0].lines == []
      modifies this`files
      ensures Valid() && files == old(files[1..]) && Stream() == old(Stream())
    {
      ghost var rest := Files(files[1..]);
      FlattenFront(File(file, line, []), rest);
      files := files[1..];
      assert Pending() == rest;
    }

    /** helper_reload: the list being read gets its header back, for the line reached. */
    method Reload()
      requires Valid() && Open()
      modifies this`files
      ensures Valid() && !Open() && Stream() == old(Stream())
    {
      ghost var was := Pending();
      files := [Parked(File(file, line, files[0].lines))] + files[1..];
      assert Pending() == was;
    }

    /** A list put on top of the stack is read before the rest. */
    method Prepend(f: File)
      requires Valid() && !Open()
      modifies this`files
      ensures Valid() && !Open() && Stream() == Lines(f) + old(Stream())
    {
      ghost var was := Pending();
      files := [Parked(f)] + files;
      assert Pending() == [f] + was;
      FlattenFront(f, was);
    }

    /** From the last character to the first, so that the list of the first ends on top. */
    method PrependPerChar(symbol: string, chars: string, body: File)
      requires Valid() && !Open()
      modifies this`files
      ensures Valid() && !Open() && Stream() == Flatten(Repeats(symbol, Singles(chars), body)) + old(Stream())
    {
      hide Flatten, Lines, Repeats, SubstituteFile;
      var i := |chars|;
      ghost var values := Singles(chars);
      RepeatsNone(symbol, body, Stream());
      assert values[i..] == [];
      while i > 0
        invariant 0 <= i <= |chars| && Valid() && !Open()
        invariant Stream() == Flatten(Repeats(symbol, values[i..], body)) + old(Stream())
      {
        i := i - 1;
        var f := SubstituteFileByPasses(symbol, [chars[i]], body);
        RepeatsFront(symbol, values, i, body, old(Stream()));
        Prepend(f);
      }
      assert values[0..] == values;
    }

    /** The operands were stored in reverse, so again the list of the first ends on top. */
    method PrependPerOperand(symbol: string, operands: seq<string>, body: File)
      requires Valid() && !Open()
      modifies this`files
      ensures Valid() && !Open() && Stream() == Flatten(Repeats(symbol, Reverse(operands), body)) + old(Stream())
    {
      hide Flatten, Lines, Repeats, SubstituteFile;
      var n := |operands|;
      ghost var values := Reverse(operands);
      RepeatsNone(symbol, body, Stream());
      assert values[n..] == [];
      for i := 0 to n
        invariant Valid() && !Open()
        invariant Stream() == Flatten(Repeats(symbol, values[n - i..], body)) + old(Stream())
      {
        var f := SubstituteFileByPasses(symbol, operands[i], body);
        ReverseAt(operands, i);
        RepeatsFront(symbol, values, n - i - 1, body, old(Stream()));
        Prepend(f);
      }
      assert values[0..] == values;
    }
  }

  // ---- the driver ---------------------------------------------------------------------------

  /** The loop over the parameters of a macro. */
  method ExpandByPasses(operands: seq<string>, args: seq<string>, f: File) returns (supplied: bool, data: File)
    ensures supplied == Supplied(operands, args)
    ensures supplied ==> data == Expand(Bindings(operands, args), f)
  {
    data := f;
    for i := 0 to |operands|
      invariant Supplied(operands[..i], args)
      invariant Supplied(operands, args) ==>
                  Expand(Bindings(operands, args)[i..], data) == Expand(Bindings(operands, args), f)
    {
      if !HasDefault(operands[i]) && i >= |args| { return false, data; }
      var b := Bind(operands[i], i, args);
      assert operands[..i + 1][i] == operands[i];
      data := SubstituteFileByPasses(b.name, b.value, data);
    }
    assert operands[..|operands|] == operands;
    supplied := true;
  }

  class Driver {
    const stack: FileStack
    var macros: map<string, Macro>
    var history: seq<Kind>
    var symbol: string
    var operands: seq<string>
    var body: File
    var trace: seq<Located>
    var stopped: bool

    constructor (f: File)
      ensures Valid() && View() == Machine(Lines(f), map[], None, [], false)
    {
      stack := new FileStack(f);
      macros, history, symbol, operands, body := map[], [], "", [], f;
      trace, stopped := [], false;
    }

    /** The frames of a capture are all alike. */
    ghost predicate Valid()
      reads this, stack
    {
      && stack.Valid()
      && (forall i: nat | i < |history| :: history[i] == history[0])
      && (history != [] && history[0].CharBody? ==> operands != [])
    }

    /** The operands of .irp are stored in reverse. */
    ghost function Captures(): Option<Capture>
      reads this
    {
      if history == [] then None
      else Some(Capture(history[0], |history|, symbol,
                        if history[0].RepeatBody? then Reverse(operands) else operands, body))
    }

    ghost function View(): Machine
      reads this, stack
      requires Valid()
    {
      Machine(stack.Stream(), macros, Captures(), trace, stopped)
    }

    /** _parse_include. */
    method Include(lib: Library, args: seq<string>)
      requires Valid() && stack.Open()
      modifies this`stopped, stack`files
      ensures Valid()
      ensures View() == if |args| == 1 && args[0] in lib
                        then old(View()).(stream := Lines(File(args[0], 0, lib[args[0]])) + old(View()).stream)
                        else old(View()).(stopped := true)
    {
      if |args| == 1 && args[0] in lib {
        stack.Reload();
        stack.Prepend(File(args[0], 0, lib[args[0]]));
      } else {
        stopped := true;
      }
    }

    /** _parse_macro_sub: the operands are shifted off the definition and put back at the end. */
    method MacroSub(name: string, args: seq<string>)
      requires Valid() && stack.Open() && name in macros
      modifies this`macros, this`stopped, stack`files
      ensures Valid() && View() == Call(old(View()), name, args)
    {
      var macro := macros[name];
      if macro.Headless? { stopped := true; return; }
      macros := macros[name := Headless(macro.body)];
      var supplied, data := ExpandByPasses(macro.operands, args, macro.body);
      if !supplied { stopped := true; return; }
      macros := macros[name := macro];
      assert macros == old(macros);
      stack.Reload();
      stack.Prepend(data);
    }

    /** _parse_macro, _parse_irp, _parse_irpc. */
    method BeginCapture(kind: Kind, args: seq<string>)
      requires Valid() && history == [] && args != [] && (kind.CharBody? ==> |args| == 2)
      modifies this`history, this`symbol, this`operands, this`body
      ensures Valid()
      ensures View() == old(View()).(capture := Some(Begin(kind, Located(stack.file, stack.line, []), args)))
    {
      var list := args[1..];
      if kind.RepeatBody? {
        list := [];
        for i := 1 to |args|
          invariant Reverse(list) == args[1..i]
        {
          list := [args[i]] + list;
        }
        assert args[1..|args|] == args[1..];
      }
      symbol, operands := args[0], list;
      body := File(stack.file, stack.line, []);
      history := [kind];
    }

    /** _parse_endr. */
    method EndRepeat()
      requires Valid() && stack.Open() && history != [] && !history[0].MacroBody?
      modifies this`history, stack`files
      ensures Valid() && View() == Finish(old(View()), old(Captures()).value)
    {
      var kind := history[0];
      history := [];
      stack.Reload();
      if kind.CharBody? {
        stack.PrependPerChar(symbol, operands[0], body);
      } else {
        stack.PrependPerOperand(symbol, operands, body);
      }
    }

    /** _parse_endm: a definition of the same name is replaced. */
    method EndMacro()
      requires Valid() && history != [] && history[0].MacroBody?
      modifies this`history, this`macros
      ensures Valid() && View() == Finish(old(View()), old(Captures()).value)
    {
      history := [];
      macros := macros[symbol := Macro(operands, body)];
    }

    /** A line met while history is not empty. */
    method CapturedLine(l: Line)
      requires Valid() && stack.Open() && history != []
      modifies this`macros, this`history, this`body, stack`files
      ensures Valid() && View() == CapturedStep(old(View()), old(Captures()).value, l)
    {
      hide Lines, Flatten, Reverse, Finish;
      var n := CountLabels(l);
      if n == |l| { return; }
      var word, kind := l[n], history[0];
      if Opens(kind, word) {
        history := [history[0]] + history;
      } else if Closes(kind, word) && |history| > 1 {
        history := history[1..];
      } else if word == ".endm" && kind.MacroBody? {
        EndMacro();
        return;
      } else if word == ".endr" && !kind.MacroBody? {
        EndRepeat();
        return;
      }
      assert |history| == Shift(kind, |old(history)|, l) && history[0] == kind;
      body := body.(lines := body.lines + [l]);
    }

    /** A line met outside of captures. */
    method PlainLine(lib: Library, l: Line)
      requires Valid() && stack.Open() && history == []
      modifies this`macros, this`history, this`symbol, this`operands, this`body, this`stopped, stack`files
      ensures Valid() && View() == PlainStep(lib, old(View()), Located(stack.file, stack.line, l))
    {
      var n := CountLabels(l);
      if n == |l| { return; }
      var word, args := l[n], l[n + 1..];
      if '=' in word { return; }
      match word {
        case ".include" => Include(lib, args);
        case ".macro" => if args != [] { BeginCapture(MacroBody, args); } else { stopped := true; }
        case ".irp" => if args != [] { BeginCapture(RepeatBody, args); } else { stopped := true; }
        case ".irpc" => if |args| == 2 { BeginCapture(CharBody, args); } else { stopped := true; }
        case _ =>
          if word == ".if" || word == ".ifdef" || word == ".ifndef" {
            stopped := true;
          } else if !("." <= word) && word in macros {
            MacroSub(word, args);
          }
      }
    }

    /** One turn of the inner loop. */
    method ReadLine(lib: Library)
      requires Valid()
      modifies this, stack
      ensures Valid() && View() == Step(lib, old(View()))
    {
      if stopped { return; }
      var more, words := stack.NextLine();
      if !more { return; }
      if history != [] {
        CapturedLine(words);
      } else {
        trace := trace + [Located(stack.file, stack.line, words)];
        PlainLine(lib, words);
      }
    }

    method Run(lib: Library, n: nat)
      requires Valid()
      modifies this, stack
      ensures Valid() && View() == Steps(lib, old(View()), n)
    {
      for i := 0 to n
        invariant Valid() && Steps(lib, View(), n - i) == Steps(lib, old(View()), n)
      {
        ReadLine(lib);
      }
    }
  }

  lemma {:induction false} ReverseAt(s: seq<string>, i: nat)
    requires i < |s|
    ensures |Reverse(s)| == |s| && Reverse(s)[|s| - 1 - i] == s[i]
  {
    if |s| > 1 {
      ReverseAt(s[1..], if i > 0 then i - 1 else 0);
    }
  }

  lemma RepeatsNone(symbol: string, body: File, rest: seq<Located>)
    ensures Flatten(Repeats(symbol, [], body)) + rest == rest
  {
  }

  lemma RepeatsFront(symbol: string, values: seq<string>, i: nat, body: File, rest: seq<Located>)
    requires i < |values|
    ensures Flatten(Repeats(symbol, values[i..], body)) + rest ==
            Lines(SubstituteFile(symbol, values[i], body)) + (Flatten(Repeats(symbol, values[i + 1..], body)) + rest)
  {
    assert Repeats(symbol, values[i..], body)[1..] == Repeats(symbol, values[i + 1..], body);
  }
}
