/**
 Sections, their running addresses and chunks, and the slots of deferred expressions
 (src/cmpl_data.c:3-46, 48-341; src/cmpl_internal.c:233-265).
 */
module Layout {
  import opened Division
  import opened Numerals
  import opened Words
  import opened Wrappers
  import E = Expr

  /** An expression left for later and the place of its value. */
  datatype Deferred = Deferred(address: nat, offset: nat, size: nat, text: string)

  datatype Section = Section(address: nat, chunks: seq<seq<Byte>>, exprs: seq<Deferred>)

  function Empty(): Section { Section(0, [], []) }

  function Flat(chunks: seq<seq<Byte>>): seq<Byte> {
    if chunks == [] then [] else chunks[0] + Flat(chunks[1..])
  }

  /** What one statement adds to a section. Errors can leave an expression without its slot. */
  datatype Output = Output(chunks: seq<seq<Byte>>, advance: nat, exprs: seq<Deferred>, errors: nat)

  function Append(s: Section, out: Output): Section {
    Section(s.address + out.advance, s.chunks + out.chunks, s.exprs + out.exprs)
  }

  function Failure(n: nat): Output { Output([], 0, [], n) }

  function Bytes(b: seq<Byte>): Output { Output([b], |b|, [], 0) }

  function Repeat(b: Byte, n: nat): seq<Byte> { seq(n, _ => b) }

  function Zeros(n: nat): seq<Byte> { Repeat(0, n) }

  /** The first `size` bytes of a value in memory. */
  function LittleEndian(value: nat, size: nat): (b: seq<Byte>)
    ensures |b| == size
  {
    if size == 0 then [] else [value % 256] + LittleEndian(value / 256, size - 1)
  }

  function FromBytes(b: seq<Byte>): nat {
    if b == [] then 0 else b[0] + 256 * FromBytes(b[1..])
  }

  function Power(size: nat): (n: nat)
    ensures n > 0
  {
    if size == 0 then 1 else 256 * Power(size - 1)
  }

  /** A value that fits is read back from its bytes. */
  lemma {:induction false} LittleEndianValue(value: nat, size: nat)
    requires value < Power(size)
    ensures FromBytes(LittleEndian(value, size)) == value
  {
    if size > 0 {
      LittleEndianValue(value / 256, size - 1);
      assert LittleEndian(value, size)[1..] == LittleEndian(value / 256, size - 1);
    }
  }

  // ---- expressions --------------------------------------------------------------------------

  /** helper_expr_parse: the value, the expression left for later if any, and the errors. */
  datatype Evaluated = Evaluated(value: U64, exprs: seq<Deferred>, errors: nat)

  function Evaluate(env: E.Env, address: nat, text: string, offset: nat, size: nat): (r: Evaluated)
    ensures r.exprs == [] || (r.value == 0 && |r.exprs| == 1 && r.exprs[0].address == address
                              && r.exprs[0].offset == offset && r.exprs[0].size == size)
    ensures size == 0 ==> r.exprs == []
  {
    match E.Parse(E.AsWritten(), env, text, size)
    case Constant(value, errors) => Evaluated(value, [], errors)
    case Deferred(rendered, errors) => Evaluated(0, [Deferred(address, offset, size, rendered)], errors)
    case Rejected(errors) => Evaluated(0, [], errors)
    case PastEnd => Evaluated(0, [], 1)
  }

  // ---- data directives ----------------------------------------------------------------------

  /** .byte, .short, .int and .long: one slot of `size` bytes per operand. */
  function DataOutput(env: E.Env, address: nat, args: seq<string>, offset: nat, size: nat): (out: Output)
    ensures |out.chunks| == 1 && out.advance == |out.chunks[0]|
    decreases |args|
  {
    if args == [] then Bytes([])
    else
      var r := Evaluate(env, address, args[0], offset, size);
      var rest := DataOutput(env, address, args[1..], offset + size, size);
      var b := LittleEndian(r.value, size) + rest.chunks[0];
      Output([b], |b|, r.exprs + rest.exprs, r.errors + rest.errors)
  }

  function Code(c: char): Byte { (c as int % 256) as Byte }

  function Codes(s: string): seq<Byte> { seq(|s|, i requires 0 <= i < |s| => Code(s[i])) }

  /** An operand without its first and last character, which are taken for quotes unseen. */
  function Unquoted(s: string): string { if |s| >= 2 then s[1..|s| - 1] else "" }

  function Ascii(args: seq<string>, end: seq<Byte>): seq<Byte> {
    if args == [] then [] else Codes(Unquoted(args[0])) + end + Ascii(args[1..], end)
  }

  function Number(args: seq<string>, i: nat): nat {
    if i < |args| then ToU64(Strtoll(args[i])) else 0
  }

  function Copies(value: nat, size: nat, repeat: nat): seq<Byte>
    decreases repeat
  {
    if repeat == 0 then [] else LittleEndian(value, size) + Copies(value, size, repeat - 1)
  }

  function Padding(address: nat, align: nat): (n: nat)
    requires align != 0
    ensures n < align
  {
    (align - address % align) % align
  }

  // ---- registers and immediates -------------------------------------------------------------

  const NAMES := ["r1", "r2", "r3", "r4", "r5", "r6", "r7", "r8", "r9", "r10", "r11", "r12", "r13", "bp", "sp", "ip"]
  const INVALID: Byte := 0xFF

  /** The position of a name from i on, or 16. */
  function Index(name: string, i: nat): (n: nat)
    requires i <= 16
    ensures i <= n <= 16 && (n < 16 ==> NAMES[n] == name)
    decreases 16 - i
  {
    if i == 16 || NAMES[i] == name then i else Index(name, i + 1)
  }

  datatype Register = Register(index: nat, pointer: bool, extended: bool) | NoRegister

  function ParseRegister(word: string): (r: Register)
    ensures r.Register? ==> r.index < 16
  {
    var pointer := 1 < |word| && word[0] == '(' && word[|word| - 1] == ')' && ')' !in word[..|word| - 1];
    var inner := if pointer then word[1..|word| - 1] else word;
    if inner == [] || inner[0] != '%' then NoRegister
    else
      var extended := 1 < |inner| && inner[1] == 'e';
      var index := Index(if extended then inner[2..] else inner[1..], 0);
      if index == 16 then NoRegister else Register(index, pointer, extended)
  }

  /** How a register is written. */
  function RegisterText(r: Register): string
    requires r.Register? && r.index < 16
  {
    var plain := (if r.extended then "%e" else "%") + NAMES[r.index];
    if r.pointer then "(" + plain + ")" else plain
  }

  lemma NamesDiffer(i: nat, j: nat)
    requires i < 16 && j < 16
    ensures NAMES[i] == NAMES[j] <==> i == j
    ensures NAMES[i] != [] && NAMES[i][0] != 'e' && ')' !in NAMES[i]
  {
  }

  lemma {:induction false} IndexOfName(i: nat, from: nat)
    requires from <= i < 16
    ensures Index(NAMES[i], from) == i
    decreases i - from
  {
    NamesDiffer(i, from);
    if from < i { IndexOfName(i, from + 1); }
  }

  /** Every register is read back from its text. */
  lemma RegisterRoundTrip(r: Register)
    requires r.Register? && r.index < 16
    ensures ParseRegister(RegisterText(r)) == r
  {
    NamesDiffer(r.index, r.index);
    IndexOfName(r.index, 0);
    var name := NAMES[r.index];
    var plain := (if r.extended then "%e" else "%") + name;
    assert (if r.extended then plain[2..] else plain[1..]) == name;
    var text := RegisterText(r);
    if r.pointer { assert text[1..|text| - 1] == plain && text[..|text| - 1] == "(" + plain; }
  }

  /** The byte of an operand; an invalid one has all bits set, those of a pointer among them. */
  function RegisterByte(r: Register): Byte
    requires r.Register? ==> r.index < 16
  {
    match r
    case NoRegister => INVALID
    case Register(index, pointer, extended) => index + (if pointer then 0x20 else 0) + (if extended then 0x40 else 0)
  }

  predicate Pointer(r: Register) { r.NoRegister? || r.pointer }

  predicate Extended(r: Register) { r.NoRegister? || r.extended }

  /** The byte of the second register also tells whether the first is a pointer. */
  function SecondByte(r1: Register, r2: Register): Byte
    requires r2.Register? && r2.index < 16
  {
    RegisterByte(r2) + if Pointer(r1) then 0x10 else 0
  }

  /** Both bytes of an operand pair tell the registers apart again. */
  lemma RegistersEncoded(r1: Register, r2: Register)
    requires r1.Register? && r1.index < 16 && r2.Register? && r2.index < 16 && !(r1.pointer && r2.pointer)
    ensures var b, c := SecondByte(r1, r2), RegisterByte(r1);
            && r1 == Register(c % 16, (c / 32) % 2 == 1, c / 64 == 1)
            && r2 == Register(b % 16, (b / 32) % 2 == 1, b / 64 == 1) && ((b / 16) % 2 == 1 <==> r1.pointer)
  {
  }

  datatype Type = Immediate | RegisterType | Other

  function ParseType(word: string): Type {
    if |word| < 2 then Other
    else if word[0] == '$' then Immediate
    else if (word[0] == '(' && word[1] == '%') || word[0] == '%' then RegisterType
    else Other
  }

  /** An instruction around one immediate: the bytes before it, and its slot. */
  function WithImmediate(env: E.Env, address: nat, front: seq<Byte>, word: string, size: nat, advance: nat): Output
    requires word != []
  {
    var r := Evaluate(env, address, word[1..], |front|, size);
    Output([front + LittleEndian(r.value, size)], advance, r.exprs, r.errors)
  }

  // ---- instructions -------------------------------------------------------------------------

  /** The forms of instructions, with the opcodes and conditions they are given. */
  datatype Form =
    | Pure(op: Byte)
    | OneReg(op: Byte)
    | TwoReg(op: Byte)
    | OneImm(op: Byte)
    | OneRegImm(op: Byte, alt: Byte)
    | TwoRegImm(op: Byte, alt: Byte)
    | OneRegOneImm(op: Byte)
    | Jump(op: Byte, condition: Byte)
    | Move(op: Byte, condition: Byte)

  function TwoRegisters(front: seq<Byte>, r1: Register, r2: Register): Output
    requires (r1.Register? ==> r1.index < 16) && r2.Register? && r2.index < 16
  {
    if Pointer(r1) && Pointer(r2) then Failure(1)
    else if Extended(r1) != Extended(r2) then Failure(1)
    else Bytes(front + [SecondByte(r1, r2), RegisterByte(r1)])
  }

  function InstructionOutput(env: E.Env, address: nat, form: Form, args: seq<string>): Output {
    match form
    case Pure(op) => if |args| != 0 then Failure(1) else Bytes([op])
    case OneReg(op) =>
      if |args| != 1 || ParseRegister(args[0]).NoRegister? then Failure(1)
      else Bytes([op, RegisterByte(ParseRegister(args[0]))])
    case TwoReg(op) =>
      if |args| != 2 || ParseRegister(args[0]).NoRegister? || ParseRegister(args[1]).NoRegister? then Failure(1)
      else TwoRegisters([op], ParseRegister(args[0]), ParseRegister(args[1]))
    case OneImm(op) =>
      if |args| != 1 || !ParseType(args[0]).Immediate? then Failure(1)
      else WithImmediate(env, address, [op], args[0], 2, 3)
    case OneRegImm(op, alt) =>
      if |args| != 1 || ParseType(args[0]).Other? then Failure(1)
      else if ParseType(args[0]).Immediate? then WithImmediate(env, address, [alt], args[0], 2, 3)
      else Bytes([op, RegisterByte(ParseRegister(args[0]))])
    case TwoRegImm(op, alt) =>
      if |args| != 2 || ParseRegister(args[1]).NoRegister? || ParseType(args[0]).Other? then Failure(1)
      else if ParseType(args[0]).RegisterType? then TwoRegisters([op], ParseRegister(args[0]), ParseRegister(args[1]))
      else
        var r2 := ParseRegister(args[1]);
        var out := WithImmediate(env, address, [alt, RegisterByte(r2)], args[0], 2, 4);
        if Extended(r2) then Output([], 0, out.exprs, out.errors + 1) else out
    case OneRegOneImm(op) =>
      if |args| != 2 || !ParseType(args[0]).Immediate? || ParseRegister(args[1]).NoRegister? then Failure(1)
      else WithImmediate(env, address, [op, RegisterByte(ParseRegister(args[1]))], args[0], 1, 4)
    case Jump(op, condition) =>
      if |args| != 1 || !ParseType(args[0]).Immediate? then Failure(1)
      else WithImmediate(env, address, [op, condition], args[0], 2, 4)
    case Move(op, condition) =>
      if |args| != 2 || ParseRegister(args[0]).NoRegister? || ParseRegister(args[1]).NoRegister? then Failure(1)
      else TwoRegisters([op, condition], ParseRegister(args[0]), ParseRegister(args[1]))
  }

  // ---- statements ---------------------------------------------------------------------------

  datatype Emitter =
    | Data(size: nat)
    | Strings
    | TerminatedStrings
    | Skip
    | Fill
    | Align
    | Org
    | Instruction(form: Form)

  function EmitterOutput(env: E.Env, address: nat, e: Emitter, args: seq<string>): Output {
    match e
    case Data(size) => if args == [] then Failure(0) else DataOutput(env, address, args, 0, size)
    case Strings => if args == [] then Failure(0) else Bytes(Ascii(args, []))
    case TerminatedStrings => if args == [] then Failure(0) else Bytes(Ascii(args, [0]))
    case Skip =>
      if !(1 <= |args| <= 2) || Number(args, 0) == 0 then Failure(1)
      else Bytes(Repeat(Number(args, 1) % 256, Number(args, 0)))
    case Fill =>
      if !(1 <= |args| <= 3) || Number(args, 1) > 8 || Number(args, 0) == 0 then Failure(1)
      else Bytes(Copies(Number(args, 2), if Number(args, 1) == 0 then 1 else Number(args, 1), Number(args, 0)))
    case Align =>
      if !(1 <= |args| <= 3) || Number(args, 0) == 0 then Failure(1)
      else
        var needed, max := Padding(address, Number(args, 0)), Number(args, 2);
        if needed != 0 && (max == 0 || needed < max) then Bytes(Repeat(Number(args, 1) % 256, needed)) else Failure(0)
    case Org =>
      if !(1 <= |args| <= 2) || Number(args, 0) == 0 then Failure(1)
      else if Number(args, 0) > address then Bytes(Repeat(Number(args, 1) % 256, Number(args, 0) - address))
      else Failure(0)
    case Instruction(form) => InstructionOutput(env, address, form, args)
  }

  /** The section, the value, and whether the name is exported. */
  datatype Symbol = Symbol(section: Option<string>, value: U64, global: bool)

  datatype Assembly = Assembly(sections: map<string, Section>, current: string,
    symbols: map<string, Symbol>, errors: nat)

  datatype Statement =
    | Emit(emitter: Emitter, args: seq<string>)
    | Label(name: string)
    | Assign(name: string, text: string)
    | AssignNew(name: string, text: string)
    | Common(name: string, text: string, global: bool)
    | Global(name: string)
    | SwitchTo(name: string)

  function SectionOf(a: Assembly, name: string): Section {
    if name in a.sections then a.sections[name] else Empty()
  }

  function Current(a: Assembly): Section { SectionOf(a, a.current) }

  function AppendTo(a: Assembly, name: string, out: Output): Assembly {
    a.(sections := a.sections[name := Append(SectionOf(a, name), out)], errors := a.errors + out.errors)
  }

  function Word(n: nat): U64 { n % TWO_64 }

  function EnvOf(a: Assembly): E.Env {
    E.Env(Word(Current(a).address),
          map name | name in a.symbols ::
            if a.symbols[name].section == Some("absolute") then E.Absolute(a.symbols[name].value) else E.Relocatable)
  }

  /** helper_symbol_set: the name "." pads the current section with zeros up to the value. */
  function SetSymbol(a: Assembly, section: string, name: string, value: U64): Assembly {
    if name == "." then
      var address := Current(a).address;
      if value > address then AppendTo(a, a.current, Bytes(Zeros(value - address))) else a
    else
      var global := name in a.symbols && a.symbols[name].global;
      a.(symbols := a.symbols[name := Symbol(Some(section), value, global)])
  }

  function SetValue(a: Assembly, name: string, text: string): Assembly {
    var r := Evaluate(EnvOf(a), Current(a).address, text, 0, 0);
    SetSymbol(a.(errors := a.errors + r.errors), "absolute", name, r.value)
  }

  /** Zeros in .bss under a name. */
  function Reserve(a: Assembly, name: string, size: nat): Assembly {
    AppendTo(SetSymbol(a, ".bss", name, Word(SectionOf(a, ".bss").address)), ".bss", Bytes(Zeros(size)))
  }

  function ReserveAs(a: Assembly, name: string, size: nat, global: bool): Assembly {
    if global then SetGlobal(Reserve(a, name, size), name) else Reserve(a, name, size)
  }

  function SetGlobal(a: Assembly, name: string): Assembly {
    if name in a.symbols then a.(symbols := a.symbols[name := a.symbols[name].(global := true)])
    else a.(symbols := a.symbols[name := Symbol(None, 0, true)])
  }

  /** A label counts where it comes first. */
  predicate Undefined(a: Assembly, name: string) {
    name !in a.symbols || a.symbols[name].section == None
  }

  function Step(a: Assembly, st: Statement): Assembly {
    match st
    case Emit(e, args) => AppendTo(a, a.current, EmitterOutput(EnvOf(a), Current(a).address, e, args))
    case Label(name) =>
      if Undefined(a, name) then SetSymbol(a, a.current, name, Word(Current(a).address)) else a
    case Assign(name, text) => SetValue(a, name, text)
    case AssignNew(name, text) => if name in a.symbols then a.(errors := a.errors + 1) else SetValue(a, name, text)
    case Common(name, text, global) =>
      var r := Evaluate(EnvOf(a), Current(a).address, text, 0, 0);
      ReserveAs(a.(errors := a.errors + r.errors), name, r.value, global)
    case Global(name) => SetGlobal(a, name)
    case SwitchTo(name) => a.(sections := a.sections[name := SectionOf(a, name)], current := name)
  }

  function Run(a: Assembly, sts: seq<Statement>): Assembly
    decreases |sts|
  {
    if sts == [] then a else Run(Step(a, sts[0]), sts[1..])
  }

  /** The assembler starts in .text. */
  function Begin(): Assembly { Assembly(map[".text" := Empty()], ".text", map[], 0) }

  // ---- addresses ----------------------------------------------------------------------------

  /** The emitter whose three bytes are counted as four. */
  predicate IsShort(a: Assembly, st: Statement) {
    st.Emit? && st.emitter.Instruction? && st.emitter.form.OneRegOneImm?
    && EmitterOutput(EnvOf(a), Current(a).address, st.emitter, st.args).chunks != []
  }

  /** How many of them a run emits into a section. */
  function Shorts(a: Assembly, sts: seq<Statement>, name: string): nat
    decreases |sts|
  {
    if sts == [] then 0
    else (if IsShort(a, sts[0]) && a.current == name then 1 else 0) + Shorts(Step(a, sts[0]), sts[1..], name)
  }

  lemma {:induction false} FlatAppend(a: seq<seq<Byte>>, b: seq<seq<Byte>>)
    ensures Flat(a + b) == Flat(a) + Flat(b)
  {
    if a == [] {
      assert a + b == b;
    } else {
      assert (a + b)[1..] == a[1..] + b;
      FlatAppend(a[1..], b);
    }
  }

  lemma FlatOne(c: seq<Byte>)
    ensures Flat([c]) == c
  {
    assert [c][1..] == [];
    assert c + Flat([]) == c;
  }

  // ---- what an emitter adds -----------------------------------------------------------------

  function First(d: Deferred): nat { d.address + d.offset }

  function Past(d: Deferred): nat { d.address + d.offset + d.size }

  /** The slots lie one after the other between two addresses. */
  predicate SlotsIn(exprs: seq<Deferred>, low: nat, high: nat) {
    && (forall i: nat | i < |exprs| :: low <= First(exprs[i]) && Past(exprs[i]) <= high)
    && (forall i: nat, j: nat | i < j < |exprs| :: Past(exprs[i]) <= First(exprs[j]))
  }

  /** Bytes from an address on are zero wherever there is a slot. */
  predicate ZeroIn(exprs: seq<Deferred>, b: seq<Byte>, base: nat) {
    forall i: nat, k: nat | i < |exprs| && k < |b| && First(exprs[i]) <= base + k < Past(exprs[i]) :: b[k] == 0
  }

  /** At most one chunk, over which the address advances, by one too many in the short form. */
  predicate Measured(out: Output, short: nat) {
    |out.chunks| <= 1 && out.advance == if out.chunks == [] then 0 else |out.chunks[0]| + short
  }

  /** Without errors the new slots are noted for the current address, lie in the new chunk and are zero there. */
  predicate Slotted(out: Output, address: nat) {
    out.errors == 0 ==>
      && NotedAt(out.exprs, address)
      && (if out.chunks == [] then out.exprs == []
          else SlotsIn(out.exprs, address, address + |out.chunks[0]|) && ZeroIn(out.exprs, out.chunks[0], address))
  }

  predicate NotedAt(exprs: seq<Deferred>, address: nat) {
    forall i: nat | i < |exprs| :: exprs[i].address == address
  }

  lemma {:induction false} ZeroBytes(size: nat)
    ensures forall k: nat | k < size :: LittleEndian(0, size)[k] == 0
  {
    if size > 0 { ZeroBytes(size - 1); }
  }

  lemma ImmediateSlotted(env: E.Env, address: nat, front: seq<Byte>, word: string, size: nat, advance: nat)
    requires word != [] && advance >= |front| + size
    ensures var out := WithImmediate(env, address, front, word, size, advance);
            && Slotted(out, address)
            && |out.chunks| == 1 && |out.chunks[0]| == |front| + size && out.advance == advance
  {
    ZeroBytes(size);
  }

  lemma InstructionAdds(env: E.Env, address: nat, form: Form, args: seq<string>)
    ensures var out := InstructionOutput(env, address, form, args);
            Measured(out, if form.OneRegOneImm? then 1 else 0) && Slotted(out, address)
  {
    match form
    case OneImm(op) =>
      if |args| == 1 && ParseType(args[0]).Immediate? { ImmediateSlotted(env, address, [op], args[0], 2, 3); }
    case OneRegImm(op, alt) =>
      if |args| == 1 && ParseType(args[0]).Immediate? { ImmediateSlotted(env, address, [alt], args[0], 2, 3); }
    case TwoRegImm(op, alt) =>
      if |args| == 2 && ParseType(args[0]).Immediate? && ParseRegister(args[1]).Register? {
        ImmediateSlotted(env, address, [alt, RegisterByte(ParseRegister(args[1]))], args[0], 2, 4);
      }
    case OneRegOneImm(op) =>
      if |args| == 2 && ParseType(args[0]).Immediate? && ParseRegister(args[1]).Register? {
        ImmediateSlotted(env, address, [op, RegisterByte(ParseRegister(args[1]))], args[0], 1, 4);
      }
    case Jump(op, condition) =>
      if |args| == 1 && ParseType(args[0]).Immediate? {
        ImmediateSlotted(env, address, [op, condition], args[0], 2, 4);
      }
    case _ =>
  }

  /** Every operand of a data directive has a slot of its own. */
  lemma {:induction false} DataAdds(env: E.Env, address: nat, args: seq<string>, offset: nat, size: nat)
    ensures var out := DataOutput(env, address, args, offset, size);
            && NotedAt(out.exprs, address)
            && SlotsIn(out.exprs, address + offset, address + offset + out.advance)
            && ZeroIn(out.exprs, out.chunks[0], address + offset)
    decreases |args|
  {
    hide Evaluate, LittleEndian, SlotsIn, ZeroIn, NotedAt;
    if args == [] {
      NoSlots(address, address + offset, []);
    } else {
      DataAdds(env, address, args[1..], offset + size, size);
      OperandAdds(env, address, args[0], offset, size);
      var r := Evaluate(env, address, args[0], offset, size);
      var rest := DataOutput(env, address, args[1..], offset + size, size);
      DataJoin(r.exprs, rest.exprs, LittleEndian(r.value, size), rest.chunks[0], address + offset);
      BothNoted(r.exprs, rest.exprs, address);
    }
  }

  lemma NoSlots(address: nat, base: nat, b: seq<Byte>)
    ensures NotedAt([], address) && SlotsIn([], base, base) && ZeroIn([], b, base)
  {
  }

  lemma OperandAdds(env: E.Env, address: nat, text: string, offset: nat, size: nat)
    ensures var r, base := Evaluate(env, address, text, offset, size), address + offset;
            && NotedAt(r.exprs, address) && SlotsIn(r.exprs, base, base + size)
            && ZeroIn(r.exprs, LittleEndian(r.value, size), base)
  {
    hide Evaluate;
    ZeroBytes(size);
  }

  lemma BothNoted(e1: seq<Deferred>, e2: seq<Deferred>, address: nat)
    requires NotedAt(e1, address) && NotedAt(e2, address)
    ensures NotedAt(e1 + e2, address)
  {
  }

  lemma DataJoin(e1: seq<Deferred>, e2: seq<Deferred>, b1: seq<Byte>, b2: seq<Byte>, base: nat)
    requires SlotsIn(e1, base, base + |b1|) && ZeroIn(e1, b1, base)
    requires SlotsIn(e2, base + |b1|, base + |b1| + |b2|) && ZeroIn(e2, b2, base + |b1|)
    ensures SlotsIn(e1 + e2, base, base + |b1 + b2|) && ZeroIn(e1 + e2, b1 + b2, base)
  {
    var e, b := e1 + e2, b1 + b2;
    forall i: nat, k: nat | i < |e| && k < |b| && First(e[i]) <= base + k < Past(e[i]) ensures b[k] == 0 {
      if i < |e1| { assert e1[i] == e[i] && b1[k] == b[k]; }
      else { assert e2[i - |e1|] == e[i] && b2[k - |b1|] == b[k]; }
    }
  }

  lemma EmitterAdds(env: E.Env, address: nat, e: Emitter, args: seq<string>)
    ensures var out := EmitterOutput(env, address, e, args);
            Measured(out, if e.Instruction? && e.form.OneRegOneImm? then 1 else 0) && Slotted(out, address)
  {
    match e
    case Data(size) => DataAdds(env, address, args, 0, size);
    case Instruction(form) => InstructionAdds(env, address, form, args);
    case _ =>
  }

  // ---- slots and their places in the bytes --------------------------------------------------

  /** Slots moved back, each by its own number. */
  function Displaced(exprs: seq<Deferred>, n: seq<nat>): seq<Deferred>
    requires |n| == |exprs|
  {
    seq(|exprs|, i requires 0 <= i < |exprs| =>
      exprs[i].(address := if exprs[i].address >= n[i] then exprs[i].address - n[i] else 0))
  }

  function Same(k: nat, count: nat): (n: seq<nat>)
    ensures |n| == count
  {
    seq(count, _ => k)
  }

  lemma DisplacedJoin(e1: seq<Deferred>, n1: seq<nat>, e2: seq<Deferred>, n2: seq<nat>)
    requires |n1| == |e1| && |n2| == |e2|
    ensures Displaced(e1 + e2, n1 + n2) == Displaced(e1, n1) + Displaced(e2, n2)
  {
  }

  lemma DisplacedSlots(e: seq<Deferred>, address: nat, k: nat, b: seq<Byte>)
    requires k <= address && NotedAt(e, address) && SlotsIn(e, address, address + |b|) && ZeroIn(e, b, address)
    ensures var d := Displaced(e, Same(k, |e|));
            SlotsIn(d, address - k, address - k + |b|) && ZeroIn(d, b, address - k)
  {
    var d := Displaced(e, Same(k, |e|));
    forall i: nat | i < |d| ensures First(d[i]) == First(e[i]) - k && Past(d[i]) == Past(e[i]) - k {
    }
  }

  /**
   Slots inside the section, one after the other. In the bytes each lies as much further to the front as
   there are short instructions before it, and is zero there.
   */
  predicate Sound(s: Section, n: seq<nat>) {
    && |n| == |s.exprs| && |Flat(s.chunks)| <= s.address
    && SlotsIn(s.exprs, 0, s.address)
    && SlotsIn(Displaced(s.exprs, n), 0, |Flat(s.chunks)|)
    && ZeroIn(Displaced(s.exprs, n), Flat(s.chunks), 0)
  }

  // ---- what every statement keeps -----------------------------------------------------------

  lemma FlatAppended(s: Section, out: Output)
    requires |out.chunks| <= 1
    ensures Flat(Append(s, out).chunks) == Flat(s.chunks) + if out.chunks == [] then [] else out.chunks[0]
  {
    if out.chunks == [] {
      assert s.chunks + out.chunks == s.chunks;
      assert Flat(s.chunks) + [] == Flat(s.chunks);
    } else {
      assert out.chunks == [out.chunks[0]];
      FlatOne(out.chunks[0]);
      FlatAppend(s.chunks, out.chunks);
    }
  }

  lemma AppendSound(s: Section, out: Output, short: nat, n: seq<nat>, k: nat)
    requires Sound(s, n) && s.address == |Flat(s.chunks)| + k
    requires Measured(out, short) && Slotted(out, s.address) && out.errors == 0
    ensures Sound(Append(s, out), n + Same(k, |out.exprs|))
  {
    var d := Displaced(s.exprs, n);
    FlatAppended(s, out);
    if out.chunks == [] {
      assert s.exprs + out.exprs == s.exprs && n + Same(k, 0) == n;
    } else {
      var b := out.chunks[0];
      DisplacedJoin(s.exprs, n, out.exprs, Same(k, |out.exprs|));
      DisplacedSlots(out.exprs, s.address, k, b);
      DataJoin(d, Displaced(out.exprs, Same(k, |out.exprs|)), Flat(s.chunks), b, 0);
      SlotsJoin(s.exprs, out.exprs, s.address, s.address + out.advance);
    }
  }

  lemma SlotsJoin(e1: seq<Deferred>, e2: seq<Deferred>, middle: nat, high: nat)
    requires middle <= high && SlotsIn(e1, 0, middle) && SlotsIn(e2, middle, high)
    ensures SlotsIn(e1 + e2, 0, high)
  {
  }

  /**
   What a step does to the section of a name: bytes only grow, the address gains `short` over them, and
   slots stay sound, with the displacements `n` before and `m` after.
   */
  predicate Keeps(a: Assembly, b: Assembly, name: string, short: nat, n: seq<nat>, m: seq<nat>) {
    var s, t := SectionOf(a, name), SectionOf(b, name);
    && Flat(s.chunks) <= Flat(t.chunks)
    && t.address - |Flat(t.chunks)| == s.address - |Flat(s.chunks)| + short
    && a.errors <= b.errors
    && (a.errors == b.errors && Sound(s, n) ==> Sound(t, m))
  }

  lemma AppendKeeps(a: Assembly, to: string, out: Output, name: string, short: nat, n: seq<nat>, k: nat)
    requires Measured(out, short) && Slotted(out, SectionOf(a, to).address)
    requires SectionOf(a, name).address == |Flat(SectionOf(a, name).chunks)| + k
    ensures Keeps(a, AppendTo(a, to, out), name, if name == to && out.chunks != [] then short else 0,
                  n, if name == to then n + Same(k, |out.exprs|) else n)
  {
    var s := SectionOf(a, to);
    if name == to {
      FlatAppended(s, out);
      if out.errors == 0 && Sound(s, n) { AppendSound(s, out, short, n, k); }
    }
  }

  lemma PlainKeeps(a: Assembly, to: string, b: seq<Byte>, name: string, n: seq<nat>)
    ensures Keeps(a, AppendTo(a, to, Bytes(b)), name, 0, n, n)
  {
    var s, t := SectionOf(a, to), Append(SectionOf(a, to), Bytes(b));
    FlatAppended(s, Bytes(b));
    if name == to && Sound(s, n) { assert t.exprs == s.exprs; GrownSound(s, t, n); }
  }

  lemma GrownSound(s: Section, t: Section, n: seq<nat>)
    requires Sound(s, n) && t.exprs == s.exprs && s.address <= t.address
    requires Flat(s.chunks) <= Flat(t.chunks) && |Flat(t.chunks)| <= t.address
    ensures Sound(t, n)
  {
    var d := Displaced(s.exprs, n);
    forall i: nat, k: nat | i < |d| && k < |Flat(t.chunks)| && First(d[i]) <= k < Past(d[i])
      ensures Flat(t.chunks)[k] == 0 {
      assert k < |Flat(s.chunks)| && Flat(s.chunks)[k] == Flat(t.chunks)[k];
    }
  }

  lemma SymbolKeeps(a: Assembly, section: string, symbol: string, value: U64, name: string, n: seq<nat>)
    ensures Keeps(a, SetSymbol(a, section, symbol, value), name, 0, n, n)
  {
    var address := Current(a).address;
    if symbol == "." && value > address { PlainKeeps(a, a.current, Zeros(value - address), name, n); }
  }

  lemma KeepsThen(a: Assembly, b: Assembly, c: Assembly, name: string, i: nat, j: nat,
                  n: seq<nat>, m: seq<nat>, l: seq<nat>)
    requires Keeps(a, b, name, i, n, m) && Keeps(b, c, name, j, m, l)
    ensures Keeps(a, c, name, i + j, n, l)
  {
    hide Sound;
  }

  lemma ErrorsKeep(a: Assembly, more: nat, name: string, n: seq<nat>)
    ensures Keeps(a, a.(errors := a.errors + more), name, 0, n, n)
  {
  }

  lemma SetKeeps(a: Assembly, errors: nat, symbol: string, value: U64, name: string, n: seq<nat>)
    ensures Keeps(a, SetSymbol(a.(errors := a.errors + errors), "absolute", symbol, value), name, 0, n, n)
  {
    var b := a.(errors := a.errors + errors);
    ErrorsKeep(a, errors, name, n);
    SymbolKeeps(b, "absolute", symbol, value, name, n);
    KeepsThen(a, b, SetSymbol(b, "absolute", symbol, value), name, 0, 0, n, n, n);
  }

  lemma ValueKeeps(a: Assembly, symbol: string, text: string, name: string, n: seq<nat>)
    ensures Keeps(a, SetValue(a, symbol, text), name, 0, n, n)
  {
    hide Keeps, Evaluate;
    var r := Evaluate(EnvOf(a), Current(a).address, text, 0, 0);
    SetKeeps(a, r.errors, symbol, r.value, name, n);
  }

  lemma ReserveKeeps(a: Assembly, symbol: string, size: nat, name: string, n: seq<nat>)
    ensures Keeps(a, Reserve(a, symbol, size), name, 0, n, n)
  {
    var value := Word(SectionOf(a, ".bss").address);
    var b := SetSymbol(a, ".bss", symbol, value);
    SymbolKeeps(a, ".bss", symbol, value, name, n);
    PlainKeeps(b, ".bss", Zeros(size), name, n);
    KeepsThen(a, b, AppendTo(b, ".bss", Bytes(Zeros(size))), name, 0, 0, n, n, n);
  }

  lemma GlobalKeeps(a: Assembly, symbol: string, name: string, n: seq<nat>)
    ensures Keeps(a, SetGlobal(a, symbol), name, 0, n, n)
  {
  }

  lemma ReserveAsKeeps(a: Assembly, symbol: string, size: nat, global: bool, name: string, n: seq<nat>)
    ensures Keeps(a, ReserveAs(a, symbol, size, global), name, 0, n, n)
  {
    ReserveKeeps(a, symbol, size, name, n);
    if global {
      var b := Reserve(a, symbol, size);
      GlobalKeeps(b, symbol, name, n);
      KeepsThen(a, b, SetGlobal(b, symbol), name, 0, 0, n, n, n);
    }
  }

  lemma CommonKeeps(a: Assembly, symbol: string, errors: nat, size: nat, global: bool, name: string, n: seq<nat>)
    ensures Keeps(a, ReserveAs(a.(errors := a.errors + errors), symbol, size, global), name, 0, n, n)
  {
    var b := a.(errors := a.errors + errors);
    ErrorsKeep(a, errors, name, n);
    ReserveAsKeeps(b, symbol, size, global, name, n);
    KeepsThen(a, b, ReserveAs(b, symbol, size, global), name, 0, 0, n, n, n);
  }

  /** The displacements of the slots that a step adds to a section with k short instructions so far. */
  function Added(a: Assembly, st: Statement, name: string, k: nat): seq<nat> {
    if st.Emit? && a.current == name then
      Same(k, |EmitterOutput(EnvOf(a), Current(a).address, st.emitter, st.args).exprs|)
    else []
  }

  predicate Off(a: Assembly, name: string, k: nat) {
    SectionOf(a, name).address == |Flat(SectionOf(a, name).chunks)| + k
  }

  lemma EmitKeeps(a: Assembly, e: Emitter, args: seq<string>, name: string, n: seq<nat>, k: nat)
    requires Off(a, name, k)
    ensures Keeps(a, Step(a, Emit(e, args)), name, if IsShort(a, Emit(e, args)) && a.current == name then 1 else 0,
                  n, n + Added(a, Emit(e, args), name, k))
  {
    EmitterAdds(EnvOf(a), Current(a).address, e, args);
    var out := EmitterOutput(EnvOf(a), Current(a).address, e, args);
    AppendKeeps(a, a.current, out, name, if e.Instruction? && e.form.OneRegOneImm? then 1 else 0, n, k);
    assert n + [] == n;
  }

  lemma LabelKeeps(a: Assembly, symbol: string, name: string, n: seq<nat>)
    ensures Keeps(a, Step(a, Label(symbol)), name, 0, n, n)
  {
    SymbolKeeps(a, a.current, symbol, Word(Current(a).address), name, n);
  }

  lemma AssignNewKeeps(a: Assembly, symbol: string, text: string, name: string, n: seq<nat>)
    ensures Keeps(a, Step(a, AssignNew(symbol, text)), name, 0, n, n)
  {
    ValueKeeps(a, symbol, text, name, n);
    ErrorsKeep(a, 1, name, n);
  }

  lemma SwitchKeeps(a: Assembly, to: string, name: string, n: seq<nat>)
    ensures Keeps(a, Step(a, SwitchTo(to)), name, 0, n, n)
  {
  }

  lemma AssignKeeps(a: Assembly, symbol: string, text: string, name: string, n: seq<nat>)
    ensures Keeps(a, Step(a, Assign(symbol, text)), name, 0, n, n)
  {
    ValueKeeps(a, symbol, text, name, n);
  }

  lemma CommonStepKeeps(a: Assembly, symbol: string, text: string, global: bool, name: string, n: seq<nat>)
    ensures Keeps(a, Step(a, Common(symbol, text, global)), name, 0, n, n)
  {
    hide Keeps, Evaluate;
    var r := Evaluate(EnvOf(a), Current(a).address, text, 0, 0);
    CommonKeeps(a, symbol, r.errors, r.value, global, name, n);
  }

  lemma GlobalStepKeeps(a: Assembly, symbol: string, name: string, n: seq<nat>)
    ensures Keeps(a, Step(a, Global(symbol)), name, 0, n, n)
  {
    GlobalKeeps(a, symbol, name, n);
  }

  lemma StepKeeps(a: Assembly, st: Statement, name: string, n: seq<nat>, k: nat)
    requires Off(a, name, k)
    ensures Keeps(a, Step(a, st), name, if IsShort(a, st) && a.current == name then 1 else 0,
                  n, n + Added(a, st, name, k))
  {
    hide Keeps, Step, Off;
    assert n + [] == n;
    match st
    case Emit(e, args) => EmitKeeps(a, e, args, name, n, k);
    case Label(symbol) => LabelKeeps(a, symbol, name, n);
    case Assign(symbol, text) => AssignKeeps(a, symbol, text, name, n);
    case AssignNew(symbol, text) => AssignNewKeeps(a, symbol, text, name, n);
    case Common(symbol, text, global) => CommonStepKeeps(a, symbol, text, global, name, n);
    case Global(symbol) => GlobalStepKeeps(a, symbol, name, n);
    case SwitchTo(to) => SwitchKeeps(a, to, name, n);
  }

  /** For each slot that a run adds to a section, the number of short instructions before it. */
  function Before(a: Assembly, sts: seq<Statement>, name: string, k: nat): seq<nat>
    decreases |sts|
  {
    if sts == [] then []
    else
      var short := if IsShort(a, sts[0]) && a.current == name then 1 else 0;
      Added(a, sts[0], name, k) + Before(Step(a, sts[0]), sts[1..], name, k + short)
  }

  lemma OffNext(a: Assembly, b: Assembly, name: string, short: nat, n: seq<nat>, m: seq<nat>, k: nat)
    requires Keeps(a, b, name, short, n, m) && Off(a, name, k)
    ensures Off(b, name, k + short)
  {
  }

  lemma {:induction false} RunKeeps(a: Assembly, sts: seq<Statement>, name: string, n: seq<nat>, k: nat)
    requires Off(a, name, k)
    ensures Keeps(a, Run(a, sts), name, Shorts(a, sts, name), n, n + Before(a, sts, name, k))
    decreases |sts|
  {
    hide Keeps, Off, Step, IsShort, Added;
    if sts == [] {
      assert n + [] == n;
      NothingKeeps(a, name, n);
    } else {
      var b := Step(a, sts[0]);
      var short := if IsShort(a, sts[0]) && a.current == name then 1 else 0;
      var m := n + Added(a, sts[0], name, k);
      var rest := Before(b, sts[1..], name, k + short);
      StepKeeps(a, sts[0], name, n, k);
      OffNext(a, b, name, short, n, m, k);
      RunKeeps(b, sts[1..], name, m, k + short);
      KeepsThen(a, b, Run(b, sts[1..]), name, short, Shorts(b, sts[1..], name), n, m, m + rest);
      assert m + rest == n + (Added(a, sts[0], name, k) + rest);
    }
  }

  lemma NothingKeeps(a: Assembly, name: string, n: seq<nat>)
    ensures Keeps(a, a, name, 0, n, n)
  {
  }

  // ---- main results -------------------------------------------------------------------------

  /** After any statements, a section's address is its bytes plus the number of short instructions in it. */
  lemma AddressIsBytes(sts: seq<Statement>, name: string)
    ensures var s := SectionOf(Run(Begin(), sts), name);
            s.address == |Flat(s.chunks)| + Shorts(Begin(), sts, name)
  {
    BeginSound(name);
    RunKeeps(Begin(), sts, name, [], 0);
  }

  lemma BeginSound(name: string)
    ensures SectionOf(Begin(), name) == Empty() && Sound(Empty(), []) && Flat(Empty().chunks) == []
  {
  }

  /**
   In a run without errors the slots of deferred expressions lie inside their section, one after the
   other. In the flattened section each is as many bytes further to the front as short instructions come
   before it, and holds zeros there; without such instructions it is where it was noted.
   */
  lemma SlotsReserved(sts: seq<Statement>, name: string)
    requires Run(Begin(), sts).errors == 0
    ensures var s, n := SectionOf(Run(Begin(), sts), name), Before(Begin(), sts, name, 0);
            && |n| == |s.exprs| && SlotsIn(s.exprs, 0, s.address)
            && SlotsIn(Displaced(s.exprs, n), 0, |Flat(s.chunks)|) && ZeroIn(Displaced(s.exprs, n), Flat(s.chunks), 0)
            && (Shorts(Begin(), sts, name) == 0 ==> Displaced(s.exprs, n) == s.exprs)
  {
    hide Shorts, Before, Displaced, Within;
    var s, n := SectionOf(Run(Begin(), sts), name), Before(Begin(), sts, name, 0);
    BeginSound(name);
    RunKeeps(Begin(), sts, name, [], 0);
    assert [] + n == n;
    BeforeBound(Begin(), sts, name, 0);
    if Shorts(Begin(), sts, name) == 0 { NotDisplaced(s.exprs, n); }
  }

  predicate Within(n: seq<nat>, low: nat, high: nat) {
    forall i: nat | i < |n| :: low <= n[i] <= high
  }

  lemma AddedWithin(a: Assembly, st: Statement, name: string, k: nat)
    ensures Within(Added(a, st, name, k), k, k)
  {
    hide EmitterOutput;
  }

  lemma {:induction false} BeforeBound(a: Assembly, sts: seq<Statement>, name: string, k: nat)
    ensures Within(Before(a, sts, name, k), k, k + Shorts(a, sts, name))
    decreases |sts|
  {
    hide Step, IsShort, Added;
    if sts != [] {
      var short := if IsShort(a, sts[0]) && a.current == name then 1 else 0;
      AddedWithin(a, sts[0], name, k);
      BeforeBound(Step(a, sts[0]), sts[1..], name, k + short);
    }
  }

  lemma NotDisplaced(exprs: seq<Deferred>, n: seq<nat>)
    requires |n| == |exprs| && Within(n, 0, 0)
    ensures Displaced(exprs, n) == exprs
  {
  }

  /**
   A label has the offset of the bytes emitted after it plus the number of short instructions before
   it in its section; so it is exact if and only if there are none.
   */
  lemma LabelOffset(before: seq<Statement>, a: Assembly, name: string, b: Assembly, after: seq<Statement>)
    requires a == Run(Begin(), before) && name != "." && Undefined(a, name) && b == Step(a, Label(name))
    ensures var bytes := Flat(Current(a).chunks);
            && name in b.symbols && b.symbols[name].section == Some(a.current)
            && b.symbols[name].value == Word(|bytes| + Shorts(Begin(), before, a.current))
            && bytes <= Flat(SectionOf(Run(b, after), a.current).chunks)
  {
    hide Sound, Step, Shorts, Before, Undefined, Word;
    AddressIsBytes(before, a.current);
    LabelStep(a, name);
    RunKeeps(b, after, a.current, [], Shorts(Begin(), before, a.current));
  }

  lemma LabelStep(a: Assembly, name: string)
    requires name != "." && Undefined(a, name)
    ensures var b := Step(a, Label(name));
            && name in b.symbols && b.symbols[name].section == Some(a.current)
            && b.symbols[name].value == Word(Current(a).address) && b.sections == a.sections
  {
  }

  lemma SmallRemainder(n: nat, x: nat)
    requires x < n
    ensures x % n == x
  {
  }

  lemma PaddedMultiple(address: nat, align: nat)
    requires align != 0
    ensures (address + Padding(address, align)) % align == 0
    ensures Padding(address, align) == 0 <==> address % align == 0
  {
    var q, r := address / align, address % align;
    assert align * q + r == address;
    if r == 0 {
      RemainderUnique(align, align, 1, 0);
    } else {
      SmallRemainder(align, align - r);
      assert align * (q + 1) == align * q + align;
      RemainderUnique(address + (align - r), align, q + 1, 0);
    }
  }

  /** .align reaches a multiple exactly unless the padding is not below a given maximum. */
  lemma AlignReaches(env: E.Env, s: Section, args: seq<string>)
    requires 1 <= |args| <= 3 && Number(args, 0) != 0
    ensures var n, max := Number(args, 0), Number(args, 2);
            var t := Append(s, EmitterOutput(env, s.address, Align, args));
            (t.address % n == 0 <==> s.address % n == 0 || max == 0 || Padding(s.address, n) < max)
  {
    PaddedMultiple(s.address, Number(args, 0));
  }

  /** .org reaches its address, unless the section is past it. */
  lemma OrgReaches(env: E.Env, s: Section, args: seq<string>)
    requires 1 <= |args| <= 2 && Number(args, 0) != 0
    ensures var t := Append(s, EmitterOutput(env, s.address, Org, args));
            t.address == if Number(args, 0) > s.address then Number(args, 0) else s.address
  {
  }

  /** "shl $1, %r1" emits three bytes, and a label after it stands for 4. */
  lemma LabelAfterShift(op: Byte, name: string, st: Statement, a: Assembly)
    requires st == Emit(Instruction(OneRegOneImm(op)), ["$1", "%r1"]) && a == Run(Begin(), [st])
    requires name != "." && Undefined(a, name)
    ensures |Flat(Current(a).chunks)| == 3 && name in Step(a, Label(name)).symbols
    ensures Step(a, Label(name)).symbols[name].value == 4
  {
    var b := Begin();
    var out := EmitterOutput(EnvOf(b), 0, st.emitter, st.args);
    RegisterRoundTrip(Register(0, false, false));
    assert RegisterText(Register(0, false, false)) == "%r1";
    ImmediateSlotted(EnvOf(b), 0, [op, RegisterByte(Register(0, false, false))], "$1", 1, 4);
    assert [st][1..] == [] && a == Step(b, st);
    FlatAppended(Empty(), out);
    LabelStep(a, name);
  }
}
