/**
 What statements do to symbols, to the location counter and to the sections (src/cmpl_data.c:11-46, 219-250;
 src/cmpl_internal.c:252-265; src/compile.c:103-112, 139-145, 168-180).
 */
module Symbols {
  import opened Numerals
  import opened Words
  import opened Wrappers
  import opened Layout
  import opened Encoding
  import E = Expr
  import Texts

  /** What a name stands for in the expressions after a statement. */
  function Seen(a: Assembly, name: string): E.Literal { E.ParseLit(EnvOf(a), name) }

  /** The assembler starts in an empty .text without symbols. */
  lemma Started(text: string)
    requires text == ".text"
    ensures Begin().current == text && Begin().symbols == map[] && Begin().errors == 0
    ensures forall name :: SectionOf(Begin(), name) == Section(0, [], [])
  {
  }

  /** Nothing is different but the symbol of one name. */
  ghost predicate OnlySymbol(a: Assembly, b: Assembly, name: string) {
    && b.sections == a.sections && b.current == a.current
    && forall other | other != name :: (other in b.symbols <==> other in a.symbols)
                                       && (other in a.symbols ==> b.symbols[other] == a.symbols[other])
  }

  predicate Exported(a: Assembly, name: string) { name in a.symbols && a.symbols[name].global }

  /** The value that an assignment gives. */
  function ValueOf(a: Assembly, text: string): U64 {
    var p := Read(EnvOf(a), text, 0);
    if p.Constant? then p.value else 0
  }

  /** .equ and `=`: later expressions see the value of the operand; an export is kept. */
  lemma Assigned(a: Assembly, name: string, text: string, b: Assembly)
    requires name != "." && b == Step(a, Assign(name, text))
    ensures OnlySymbol(a, b, name) && name in b.symbols && b.symbols[name].value == ValueOf(a, text)
    ensures b.symbols[name].section == Some("absolute") && (Exported(b, name) <==> Exported(a, name))
    ensures Texts.IsName(name) ==> Seen(b, name) == E.Known(ValueOf(a, text))
    ensures b.errors == a.errors <==> Understood(Read(EnvOf(a), text, 0))
  {
  }

  /** .equiv does the same to a new name, and refuses an old one. */
  lemma AssignedOnce(a: Assembly, name: string, text: string)
    ensures Step(a, AssignNew(name, text)) ==
            if name in a.symbols then a.(errors := a.errors + 1) else Step(a, Assign(name, text))
  {
  }

  /** Assigning to "." fills up with zeros to a higher address, and does nothing for a lower one. */
  lemma DotAssigned(a: Assembly, dot: string, text: string, b: Assembly)
    requires dot == "." && b == Step(a, Assign(dot, text))
    ensures b.symbols == a.symbols && b.current == a.current
    ensures var s, t, value := Current(a), Current(b), ValueOf(a, text);
            && t.address == (if value > s.address then value else s.address) && t.exprs == s.exprs
            && Flat(t.chunks) == Flat(s.chunks) + seq(t.address - s.address, _ => 0)
    ensures forall name | name != a.current :: SectionOf(b, name) == SectionOf(a, name)
  {
    var value := ValueOf(a, text);
    assert Evaluate(EnvOf(a), Current(a).address, text, 0, 0).value == value;
    hide Evaluate, Flat;
    if value > Current(a).address {
      ZerosAdded(Current(a), value - Current(a).address);
    } else {
      assert Flat(Current(a).chunks) + [] == Flat(Current(a).chunks);
    }
  }

  lemma ZerosAdded(s: Section, n: nat)
    ensures Flat(Append(s, Bytes(Zeros(n))).chunks) == Flat(s.chunks) + seq(n, _ => 0)
  {
    FlatAppended(s, Bytes(Zeros(n)));
  }

  /** "." in an expression is the address of the current section. */
  lemma DotSeen(a: Assembly, dot: string)
    requires dot == "."
    ensures Seen(a, dot) == E.Known(Current(a).address % TWO_64)
  {
  }

  /** The first label of a name counts, and expressions are left for later on its account. */
  lemma Labelled(a: Assembly, name: string, b: Assembly)
    requires name != "." && a.current != "absolute" && b == Step(a, Label(name))
    ensures if name in a.symbols && a.symbols[name].section.Some? then b == a
            else
              && OnlySymbol(a, b, name) && b.errors == a.errors && (Exported(b, name) <==> Exported(a, name))
              && name in b.symbols && b.symbols[name].section == Some(a.current)
              && b.symbols[name].value == Current(a).address % TWO_64
              && (Texts.IsName(name) ==> Seen(b, name) == E.Unknown)
  {
  }

  /** .globl exports a name and leaves it what it stands for; a new one stands for nothing yet. */
  lemma MadeGlobal(a: Assembly, name: string, b: Assembly)
    requires b == Step(a, Global(name))
    ensures OnlySymbol(a, b, name) && b.errors == a.errors && Exported(b, name)
    ensures name in a.symbols ==>
              b.symbols[name].section == a.symbols[name].section && b.symbols[name].value == a.symbols[name].value
    ensures name !in a.symbols ==> b.symbols[name].section == None && b.symbols[name].value == 0
  {
  }

  /** .lcomm and .comm: zeros at the end of .bss, under the name, which .comm exports. */
  lemma Reserved(a: Assembly, name: string, text: string, global: bool, b: Assembly)
    requires name != "." && b == Step(a, Common(name, text, global))
    ensures var s, t, size := SectionOf(a, ".bss"), SectionOf(b, ".bss"), ValueOf(a, text);
            && t.address == s.address + size && t.chunks == s.chunks + [Zeros(size)] && t.exprs == s.exprs
            && name in b.symbols && b.symbols[name].section == Some(".bss")
            && b.symbols[name].value == s.address % TWO_64
            && (Exported(b, name) <==> global || Exported(a, name))
    ensures b.current == a.current && forall other | other != ".bss" :: SectionOf(b, other) == SectionOf(a, other)
    ensures forall other | other != name && other in a.symbols ::
              other in b.symbols && b.symbols[other] == a.symbols[other]
    ensures b.errors == a.errors <==> Understood(Read(EnvOf(a), text, 0))
    ensures |Zeros(ValueOf(a, text))| == ValueOf(a, text) && forall z <- Zeros(ValueOf(a, text)) :: z == 0
  {
  }

  /** Directives and instructions add to the current section and to nothing else. */
  lemma Emitted(a: Assembly, e: Emitter, args: seq<string>, b: Assembly)
    requires b == Step(a, Emit(e, args))
    ensures var s, t, out := Current(a), Current(b), EmitterOutput(EnvOf(a), Current(a).address, e, args);
            && t.address == s.address + out.advance && t.chunks == s.chunks + out.chunks
            && t.exprs == s.exprs + out.exprs && b.errors == a.errors + out.errors
    ensures b.symbols == a.symbols && b.current == a.current
    ensures forall name | name != a.current :: SectionOf(b, name) == SectionOf(a, name)
  {
  }

  /** After a switch of sections what follows goes to the new one, which begins empty if it is new. */
  lemma Switched(a: Assembly, name: string, b: Assembly)
    requires b == Step(a, SwitchTo(name))
    ensures b.current == name && b.symbols == a.symbols && b.errors == a.errors
    ensures forall other :: SectionOf(b, other) == SectionOf(a, other)
    ensures Current(b) == if name in a.sections then a.sections[name] else Section(0, [], [])
  {
  }

  /** Only the current section is ever changed, and .bss by .comm. */
  lemma SectionsApart(a: Assembly, st: Statement, name: string)
    requires name != a.current && (st.Common? ==> name != ".bss")
    ensures SectionOf(Step(a, st), name) == SectionOf(a, name)
  {
  }
}
