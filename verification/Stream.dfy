/**
 Files, macros and repeats as one stream of lines (src/compile.c:90-105, 144-151, 167, 258-305;
 src/cmpl_control.c:71-121, 155-202).
 */
module Stream {
  import opened Wrappers
  import opened Substitution

  type Line = seq<string>

  /** A list of lines under a header: the file's name and the number of the line before the first. */
  datatype File = File(name: string, number: nat, lines: seq<Line>)

  datatype Located = Located(file: string, number: nat, words: Line)

  function Lines(f: File): seq<Located>
    decreases |f.lines|
  {
    if f.lines == [] then []
    else [Located(f.name, f.number + 1, f.lines[0])] + Lines(File(f.name, f.number + 1, f.lines[1..]))
  }

  /** Line i stands under the name of its file and its own number. */
  lemma {:induction false} LineAt(f: File, i: nat)
    requires i < |f.lines|
    ensures |Lines(f)| == |f.lines| && Lines(f)[i] == Located(f.name, f.number + 1 + i, f.lines[i])
    decreases i
  {
    LineCount(f);
    if i > 0 { LineAt(File(f.name, f.number + 1, f.lines[1..]), i - 1); }
  }

  lemma {:induction false} LineCount(f: File)
    ensures |Lines(f)| == |f.lines|
    decreases |f.lines|
  {
    if f.lines != [] { LineCount(File(f.name, f.number + 1, f.lines[1..])); }
  }

  function Flatten(files: seq<File>): seq<Located> {
    if files == [] then [] else Lines(files[0]) + Flatten(files[1..])
  }

  // ---- words --------------------------------------------------------------------------------

  /** The first colon is the last character. */
  predicate IsLabel(word: string) {
    word != [] && word[|word| - 1] == ':' && ':' !in word[..|word| - 1]
  }

  function Labels(l: Line): (n: nat)
    ensures n <= |l|
  {
    if l != [] && IsLabel(l[0]) then 1 + Labels(l[1..]) else 0
  }

  predicate Blank(l: Line) { Labels(l) == |l| }

  function Head(l: Line): string
    requires !Blank(l)
  {
    l[Labels(l)]
  }

  function Operands(l: Line): seq<string>
    requires !Blank(l)
  {
    l[Labels(l) + 1..]
  }

  /** A label is a name without a colon, with a colon after it. */
  lemma LabelText(word: string)
    ensures IsLabel(word) <==> exists name :: word == name + ":" && ':' !in name
  {
    if IsLabel(word) {
      var name := word[..|word| - 1];
      assert word == name + ":";
    }
    forall name | word == name + ":" && ':' !in name ensures IsLabel(word) {
      assert word[..|word| - 1] == name;
    }
  }

  /** After its labels a line consists of a word and its operands, or of nothing. */
  lemma {:induction false} AfterLabels(labels: seq<string>, word: string, args: seq<string>)
    requires forall i | 0 <= i < |labels| :: IsLabel(labels[i])
    ensures Blank(labels)
    ensures var l := labels + [word] + args;
            !IsLabel(word) ==> !Blank(l) && Head(l) == word && Operands(l) == args
    decreases |labels|
  {
    var l := labels + [word] + args;
    if labels == [] {
      assert l == [word] + args && l[1..] == args;
    } else {
      AfterLabels(labels[1..], word, args);
      assert l[1..] == labels[1..] + [word] + args;
      if !IsLabel(word) {
        assert Labels(l) == 1 + Labels(l[1..]);
        assert l[Labels(l)] == l[1..][Labels(l[1..])];
        assert l[Labels(l) + 1..] == l[1..][Labels(l[1..]) + 1..];
      }
    }
  }

  /** What a captured body becomes: a macro, or a repeat per operand or per character. */
  datatype Kind = MacroBody | RepeatBody | CharBody

  function Letter(k: Kind): char { if k.MacroBody? then 'm' else 'r' }

  predicate Opens(k: Kind, word: string) {
    if k.MacroBody? then word == ".macro" else ".irp" <= word
  }

  /** What closes an inner block: any word that goes on with the letter. */
  predicate Closes(k: Kind, word: string) { ".end" <= word && |word| > 4 && word[4] == Letter(k) }

  /** What finishes the capture: the exact word. */
  predicate Finishes(k: Kind, word: string) { word == ".end" + [Letter(k)] }

  // ---- expansion ----------------------------------------------------------------------------

  function SubstituteLine(what: string, with: string, l: Line): Line {
    seq(|l|, i requires 0 <= i < |l| => Substitute(what, with, l[i]))
  }

  function SubstituteLines(what: string, with: string, ls: seq<Line>): seq<Line> {
    seq(|ls|, i requires 0 <= i < |ls| => SubstituteLine(what, with, ls[i]))
  }

  function SubstituteFile(what: string, with: string, f: File): File {
    f.(lines := SubstituteLines(what, with, f.lines))
  }

  predicate HasDefault(operand: string) { '=' in operand }

  function DefaultAt(operand: string): (n: nat)
    requires HasDefault(operand)
    ensures n < |operand| && operand[n] == '=' && '=' !in operand[..n]
  {
    if operand[0] == '=' then 0 else 1 + DefaultAt(operand[1..])
  }

  /** A default wins over an argument in its place. */
  function Bind(operand: string, i: nat, args: seq<string>): (b: Binding)
    requires HasDefault(operand) || i < |args|
    ensures HasDefault(operand) ==> operand == b.name + ['='] + b.value && '=' !in b.name
    ensures !HasDefault(operand) ==> b.name == operand && b.value == args[i]
  {
    if HasDefault(operand) then Binding(operand[..DefaultAt(operand)], operand[DefaultAt(operand) + 1..])
    else Binding(operand, args[i])
  }

  predicate Supplied(operands: seq<string>, args: seq<string>) {
    forall i: nat | i < |operands| :: HasDefault(operands[i]) || i < |args|
  }

  function Bindings(operands: seq<string>, args: seq<string>): seq<Binding>
    requires Supplied(operands, args)
  {
    seq(|operands|, i requires 0 <= i < |operands| => Bind(operands[i], i, args))
  }

  function Expand(b: seq<Binding>, f: File): File {
    if b == [] then f else Expand(b[1..], SubstituteFile(b[0].name, b[0].value, f))
  }

  function Repeats(symbol: string, values: seq<string>, body: File): seq<File> {
    seq(|values|, i requires 0 <= i < |values| => SubstituteFile(symbol, values[i], body))
  }

  function Singles(s: string): seq<string> { seq(|s|, i requires 0 <= i < |s| => [s[i]]) }

  // ---- the line stream ----------------------------------------------------------------------

  /** A stored macro; a call that lacks an argument leaves it without its operands. */
  datatype Macro = Macro(operands: seq<string>, body: File) | Headless(body: File)

  datatype Capture = Capture(kind: Kind, depth: nat, symbol: string, operands: seq<string>, body: File)

  /**
   The lines to come, what is stored, what is being captured, and the lines met outside of captures.
   An error in .include, .macro, .irp, .irpc or in a macro call stops the model: the code then takes a
   line for a header. Conditionals are not modelled and stop it too.
   */
  datatype Machine = Machine(
    stream: seq<Located>, macros: map<string, Macro>, capture: Option<Capture>, trace: seq<Located>, stopped: bool)

  type Library = map<string, seq<Line>>

  function Begin(kind: Kind, at: Located, operands: seq<string>): Capture
    requires operands != []
  {
    Capture(kind, 1, operands[0], operands[1..], File(at.file, at.number, []))
  }

  function Call(m: Machine, name: string, args: seq<string>): Machine
    requires name in m.macros
  {
    var macro := m.macros[name];
    if macro.Headless? then m.(stopped := true)
    else if Supplied(macro.operands, args) then
      m.(stream := Lines(Expand(Bindings(macro.operands, args), macro.body)) + m.stream)
    else m.(macros := m.macros[name := Headless(macro.body)], stopped := true)
  }

  /** A line outside of captures. */
  function PlainStep(lib: Library, m: Machine, at: Located): Machine {
    if Blank(at.words) then m
    else
      var word, args := Head(at.words), Operands(at.words);
      if '=' in word then m
      else if word == ".include" then
        if |args| == 1 && args[0] in lib then m.(stream := Lines(File(args[0], 0, lib[args[0]])) + m.stream)
        else m.(stopped := true)
      else if word == ".macro" then
        if args != [] then m.(capture := Some(Begin(MacroBody, at, args))) else m.(stopped := true)
      else if word == ".irp" then
        if args != [] then m.(capture := Some(Begin(RepeatBody, at, args))) else m.(stopped := true)
      else if word == ".irpc" then
        if |args| == 2 then m.(capture := Some(Begin(CharBody, at, args))) else m.(stopped := true)
      else if word == ".if" || word == ".ifdef" || word == ".ifndef" then m.(stopped := true)
      else if "." <= word then m
      else if word in m.macros then Call(m, word, args)
      else m
  }

  function Values(c: Capture): seq<string> {
    if c.kind.CharBody? && c.operands != [] then Singles(c.operands[0]) else c.operands
  }

  /** How a line changes the depth of a capture; 0 is its end. */
  function Shift(k: Kind, depth: nat, l: Line): nat
    requires depth > 0
  {
    if Blank(l) then depth
    else if Opens(k, Head(l)) then depth + 1
    else if depth > 1 && Closes(k, Head(l)) then depth - 1
    else if depth == 1 && Finishes(k, Head(l)) then 0
    else depth
  }

  function Finish(m: Machine, c: Capture): Machine {
    var m := m.(capture := None);
    if c.kind.MacroBody? then m.(macros := m.macros[c.symbol := Macro(c.operands, c.body)])
    else m.(stream := Flatten(Repeats(c.symbol, Values(c), c.body)) + m.stream)
  }

  /** A line inside of a capture. */
  function CapturedStep(m: Machine, c: Capture, l: Line): Machine {
    var depth := if c.depth == 0 then 0 else Shift(c.kind, c.depth, l);
    if Blank(l) then m
    else if depth == 0 then Finish(m, c)
    else m.(capture := Some(c.(depth := depth, body := c.body.(lines := c.body.lines + [l]))))
  }

  function Step(lib: Library, m: Machine): Machine {
    if m.stopped || m.stream == [] then m
    else
      var at, rest := m.stream[0], m.(stream := m.stream[1..]);
      match m.capture
      case None => PlainStep(lib, rest.(trace := m.trace + [at]), at)
      case Some(c) => CapturedStep(rest, c, at.words)
  }

  function Steps(lib: Library, m: Machine, n: nat): Machine
    decreases n
  {
    if n == 0 then m else Steps(lib, Step(lib, m), n - 1)
  }
}
