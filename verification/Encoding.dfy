/**
 The bytes that directives and instructions emit for their operands (src/cmpl_data.c:48-341;
 src/cmpl_internal.c:233-250).
 */
module Encoding {
  import opened Division
  import opened Numerals
  import opened Shifts
  import opened Words
  import opened Layout
  import Emitters
  import E = Expr

  // ---- values -------------------------------------------------------------------------------

  /** Byte k of a value in memory: its bits from 8k on. */
  function ByteOf(n: nat, k: nat): Byte { Quotient(n, Power2(8 * k)) % 256 }

  predicate IsValue(b: seq<Byte>, n: nat) { forall k: nat | k < |b| :: b[k] == ByteOf(n, k) }

  lemma EightMore(k: nat)
    ensures Power2(k + 8) == 256 * Power2(k)
  {
    assert Power2(k + 8) == 2 * Power2(k + 7) && Power2(k + 7) == 2 * Power2(k + 6);
    assert Power2(k + 6) == 2 * Power2(k + 5) && Power2(k + 5) == 2 * Power2(k + 4);
    assert Power2(k + 4) == 2 * Power2(k + 3) && Power2(k + 3) == 2 * Power2(k + 2);
    assert Power2(k + 2) == 2 * Power2(k + 1) && Power2(k + 1) == 2 * Power2(k);
  }

  lemma NextByte(n: nat, k: nat)
    ensures ByteOf(n, k + 1) == ByteOf(n / 256, k)
  {
    var p, q := Power2(8 * k), n / 256;
    EightMore(8 * k);
    assert q == p * (q / p) + q % p;
    assert n == 256 * q + n % 256 && 256 * (p * (q / p)) == (256 * p) * (q / p);
    RemainderUnique(n, 256 * p, q / p, 256 * (q % p) + n % 256);
  }

  lemma {:induction false} LittleEndianAt(n: nat, size: nat)
    ensures IsValue(LittleEndian(n, size), n)
  {
    hide ByteOf;
    if size > 0 {
      LittleEndianAt(n / 256, size - 1);
      var b, rest := LittleEndian(n, size), LittleEndian(n / 256, size - 1);
      forall k: nat | k < size ensures b[k] == ByteOf(n, k) {
        if k == 0 { FirstByte(n); } else { NextByte(n, k - 1); assert b[k] == rest[k - 1]; }
      }
    }
  }

  lemma FirstByte(n: nat)
    ensures ByteOf(n, 0) == n % 256
  {
  }

  /** What the expression engine makes of an operand. */
  function Read(env: E.Env, text: string, size: nat): E.Parsed { E.Parse(E.AsWritten(), env, text, size) }

  /** The slot of an operand: its value if known, else zeros, noted with the text that is left. */
  predicate Slot(env: E.Env, text: string, address: nat, offset: nat, size: nat, b: seq<Byte>, exprs: seq<Deferred>) {
    var p := Read(env, text, size);
    && |b| == size && IsValue(b, if p.Constant? then p.value else 0)
    && exprs == if p.Deferred? then [Deferred(address, offset, size, p.text)] else []
  }

  lemma EvaluatedSlot(env: E.Env, text: string, address: nat, offset: nat, size: nat)
    ensures var r := Evaluate(env, address, text, offset, size);
            Slot(env, text, address, offset, size, LittleEndian(r.value, size), r.exprs)
  {
    LittleEndianAt(Evaluate(env, address, text, offset, size).value, size);
  }

  // ---- data directives ----------------------------------------------------------------------

  /** Operand i of .byte, .short, .int or .long stands in slot i, and what is deferred is noted there. */
  lemma {:induction false} DataSlots(env: E.Env, address: nat, args: seq<string>, offset: nat, size: nat, i: nat)
    returns (mine: seq<Deferred>)
    requires i < |args|
    ensures var out := DataOutput(env, address, args, offset, size);
            && |out.chunks[0]| == |args| * size && 0 <= i * size <= i * size + size <= |args| * size
            && Slot(env, args[i], address, offset + i * size, size, out.chunks[0][i * size..i * size + size], mine)
            && forall e <- mine :: e in out.exprs
    decreases |args|
  {
    hide Slot, Evaluate, LittleEndian;
    var out := DataOutput(env, address, args, offset, size);
    var rest := DataOutput(env, address, args[1..], offset + size, size);
    var r := Evaluate(env, address, args[0], offset, size);
    var front := LittleEndian(r.value, size);
    assert out.chunks[0] == front + rest.chunks[0] && out.exprs == r.exprs + rest.exprs;
    Emitters.DataLength(env, address, args, offset, size);
    SlotsInside(i, |args|, size);
    if i == 0 {
      mine := r.exprs;
      EvaluatedSlot(env, args[0], address, offset, size);
      FirstSlot(front, rest.chunks[0], size);
    } else {
      Emitters.DataLength(env, address, args[1..], offset + size, size);
      mine := DataSlots(env, address, args[1..], offset + size, size, i - 1);
      LaterSlot(front, rest.chunks[0], i, size);
    }
  }

  lemma FirstSlot(front: seq<Byte>, rest: seq<Byte>, size: nat)
    requires |front| == size
    ensures (front + rest)[0 * size..0 * size + size] == front
  {
    FirstSlice(front, rest);
  }

  lemma LaterSlot(front: seq<Byte>, rest: seq<Byte>, i: nat, size: nat)
    requires i > 0 && |front| == size && 0 <= (i - 1) * size <= (i - 1) * size + size <= |rest|
    ensures i * size == size + (i - 1) * size
    ensures (front + rest)[i * size..i * size + size] == rest[(i - 1) * size..(i - 1) * size + size]
  {
    NextSlot(i, size);
    LaterSlice(front, rest, (i - 1) * size, (i - 1) * size + size);
  }

  lemma FirstSlice(front: seq<Byte>, rest: seq<Byte>)
    ensures (front + rest)[0..|front|] == front
  {
  }

  lemma LaterSlice(front: seq<Byte>, rest: seq<Byte>, from: nat, to: nat)
    requires from <= to <= |rest|
    ensures (front + rest)[|front| + from..|front| + to] == rest[from..to]
  {
  }

  lemma SlotsInside(i: nat, n: nat, size: nat)
    requires i < n
    ensures 0 <= i * size <= i * size + size <= n * size
  {
    assert n * size == i * size + size + (n - 1 - i) * size;
    NextSlot(n - 1 - i, size);
    NextSlot(i, size);
  }

  lemma NextSlot(i: nat, size: nat)
    ensures i > 0 ==> i * size == size + (i - 1) * size
    ensures i * size >= 0
  {
  }

  /** Errors come from the operands alone. */
  lemma {:induction false} DataErrors(env: E.Env, address: nat, args: seq<string>, offset: nat, size: nat)
    ensures DataOutput(env, address, args, offset, size).errors == 0 <==>
            forall i: nat | i < |args| :: Understood(Read(env, args[i], size))
    decreases |args|
  {
    hide Understood;
    if args != [] {
      DataErrors(env, address, args[1..], offset + size, size);
      OperandErrors(env, address, args[0], offset, size);
      assert forall i: nat | 0 < i < |args| :: args[i] == args[1..][i - 1];
      if i: nat :| i < |args| && !Understood(Read(env, args[i], size)) {
        if i > 0 { assert !Understood(Read(env, args[1..][i - 1], size)); }
      } else {
        assert Understood(Read(env, args[0], size));
        forall i: nat | i < |args[1..]| ensures Understood(Read(env, args[1..][i], size)) {
          assert args[1..][i] == args[i + 1];
        }
      }
    }
  }

  predicate Understood(p: E.Parsed) { !p.PastEnd? && p.errors == 0 }

  lemma OperandErrors(env: E.Env, address: nat, text: string, offset: nat, size: nat)
    ensures Evaluate(env, address, text, offset, size).errors == 0 <==> Understood(Read(env, text, size))
  {
  }

  // ---- immediates ---------------------------------------------------------------------------

  /** An instruction of some bytes and the slot of one immediate. */
  predicate EmitsSlot(out: Output, env: E.Env, text: string, address: nat, front: seq<Byte>, size: nat, advance: nat) {
    && |out.chunks| == 1 && |out.chunks[0]| == |front| + size && out.chunks[0][..|front|] == front
    && Slot(env, text, address, |front|, size, out.chunks[0][|front|..], out.exprs)
    && out.advance == advance
  }

  /** `$` marks an immediate. */
  function Dollar(text: string): string { "$" + text }

  lemma ImmediateSlot(env: E.Env, address: nat, front: seq<Byte>, text: string, size: nat, advance: nat)
    requires text != []
    ensures var out := WithImmediate(env, address, front, Dollar(text), size, advance);
            EmitsSlot(out, env, text, address, front, size, advance)
    ensures ParseType(Dollar(text)).Immediate? && Dollar(text)[1..] == text
  {
    var r := Evaluate(env, address, text, |front|, size);
    EvaluatedSlot(env, text, address, |front|, size);
    var b := LittleEndian(r.value, size);
    assert (front + b)[..|front|] == front && (front + b)[|front|..] == b;
  }

  /** The byte of a register: its number, 32 for a pointer and 64 for an extended one. */
  function Code(r: Register): Byte
    requires r.Register? && r.index < 16
  {
    r.index + (if r.pointer then 32 else 0) + if r.extended then 64 else 0
  }

  /** Where the immediates of each form stand, and after which bytes. */
  lemma ImmediateForms(env: E.Env, address: nat, op: Byte, alt: Byte, text: string, r: Register)
    requires text != [] && r.Register? && r.index < 16
    ensures EmitsSlot(InstructionOutput(env, address, OneImm(op), [Dollar(text)]), env, text, address, [op], 2, 3)
    ensures EmitsSlot(InstructionOutput(env, address, OneRegImm(op, alt), [Dollar(text)]),
                      env, text, address, [alt], 2, 3)
    ensures EmitsSlot(InstructionOutput(env, address, Jump(op, alt), [Dollar(text)]),
                      env, text, address, [op, alt], 2, 4)
    ensures EmitsSlot(InstructionOutput(env, address, OneRegOneImm(op), [Dollar(text), RegisterText(r)]),
                      env, text, address, [op, Code(r)], 1, 4)
    ensures var out := InstructionOutput(env, address, TwoRegImm(op, alt), [Dollar(text), RegisterText(r)]);
            if r.extended then out.chunks == [] && out.advance == 0 && out.errors > 0
            else EmitsSlot(out, env, text, address, [alt, Code(r)], 2, 4)
  {
    hide Evaluate, Slot, ParseRegister, RegisterText;
    RegisterRoundTrip(r);
    ImmediateSlot(env, address, [op], text, 2, 3);
    ImmediateSlot(env, address, [alt], text, 2, 3);
    ImmediateSlot(env, address, [op, alt], text, 2, 4);
    ImmediateSlot(env, address, [op, Code(r)], text, 1, 4);
    ImmediateSlot(env, address, [alt, Code(r)], text, 2, 4);
  }

  // ---- registers ----------------------------------------------------------------------------

  /** The bytes of a pair: the second register, with 16 if the first is a pointer, before the first. */
  function PairCode(r1: Register, r2: Register): seq<Byte>
    requires r1.Register? && r1.index < 16 && r2.Register? && r2.index < 16
  {
    [Code(r2) + (if r1.pointer then 16 else 0), Code(r1)]
  }

  predicate EmitsBytes(out: Output, b: seq<Byte>) {
    out.chunks == [b] && out.advance == |b| && out.exprs == [] && out.errors == 0
  }

  predicate Refuses(out: Output) { out.chunks == [] && out.advance == 0 && out.exprs == [] && out.errors == 1 }

  /** Of a pair at most one is a pointer, and both have the same width. */
  predicate Fits(r1: Register, r2: Register)
    requires r1.Register? && r2.Register?
  {
    !(r1.pointer && r2.pointer) && r1.extended == r2.extended
  }

  lemma RegisterForms(env: E.Env, address: nat, op: Byte, alt: Byte, r: Register)
    requires r.Register? && r.index < 16
    ensures EmitsBytes(InstructionOutput(env, address, OneReg(op), [RegisterText(r)]), [op, Code(r)])
    ensures EmitsBytes(InstructionOutput(env, address, OneRegImm(op, alt), [RegisterText(r)]), [op, Code(r)])
    ensures EmitsBytes(InstructionOutput(env, address, Pure(op), []), [op])
  {
    RegisterRoundTrip(r);
    RegisterTyped(r);
    hide ParseRegister, RegisterText, ParseType, WithImmediate;
  }

  /** Of two registers the second comes first in the bytes. */
  lemma PairForms(env: E.Env, address: nat, op: Byte, alt: Byte, r1: Register, r2: Register)
    requires r1.Register? && r1.index < 16 && r2.Register? && r2.index < 16
    ensures EmitsPair(InstructionOutput(env, address, TwoReg(op), [RegisterText(r1), RegisterText(r2)]), [op], r1, r2)
    ensures EmitsPair(InstructionOutput(env, address, TwoRegImm(op, alt), [RegisterText(r1), RegisterText(r2)]),
                      [op], r1, r2)
    ensures EmitsPair(InstructionOutput(env, address, Move(op, alt), [RegisterText(r1), RegisterText(r2)]),
                      [op, alt], r1, r2)
  {
    var args := [RegisterText(r1), RegisterText(r2)];
    RegisterRoundTrip(r1);
    RegisterRoundTrip(r2);
    RegisterTyped(r1);
    PairForm([op], r1, r2);
    PairForm([op, alt], r1, r2);
    hide ParseRegister, RegisterText, ParseType, WithImmediate, TwoRegisters, EmitsPair;
    assert args[0] == RegisterText(r1) && args[1] == RegisterText(r2) && |args| == 2;
    assert InstructionOutput(env, address, TwoReg(op), args) == TwoRegisters([op], r1, r2);
    assert InstructionOutput(env, address, TwoRegImm(op, alt), args) == TwoRegisters([op], r1, r2);
    assert InstructionOutput(env, address, Move(op, alt), args) == TwoRegisters([op, alt], r1, r2);
  }

  predicate EmitsPair(out: Output, front: seq<Byte>, r1: Register, r2: Register)
    requires r1.Register? && r1.index < 16 && r2.Register? && r2.index < 16
  {
    if Fits(r1, r2) then EmitsBytes(out, front + PairCode(r1, r2)) else Refuses(out)
  }

  lemma PairForm(front: seq<Byte>, r1: Register, r2: Register)
    requires r1.Register? && r1.index < 16 && r2.Register? && r2.index < 16
    ensures EmitsPair(TwoRegisters(front, r1, r2), front, r1, r2)
  {
  }

  /** The numbers of operands that the forms take; any other is refused. */
  lemma OperandCount(env: E.Env, address: nat, form: Form, args: seq<string>)
    ensures (match form
             case Pure(_) => |args| != 0
             case OneReg(_) => |args| != 1
             case OneImm(_) => |args| != 1
             case OneRegImm(_, _) => |args| != 1
             case Jump(_, _) => |args| != 1
             case _ => |args| != 2) ==> Refuses(InstructionOutput(env, address, form, args))
  {
    hide WithImmediate, TwoRegisters, ParseRegister, ParseType;
  }

  /** A word with its brackets, if it has any, put back around what is between them. */
  lemma Unbracketed(word: string)
    requires |word| > 1 && word[0] == '(' && word[|word| - 1] == ')'
    ensures "(" + word[1..|word| - 1] + ")" == word
  {
  }

  lemma Unmarked(inner: string, extended: bool)
    requires inner != [] && inner[0] == '%' && (extended ==> |inner| > 1 && inner[1] == 'e')
    ensures (if extended then "%e" + inner[2..] else "%" + inner[1..]) == inner
  {
  }

  /** Only the texts of registers are read as registers. */
  lemma RegisterIff(word: string)
    ensures ParseRegister(word).Register? ==> RegisterText(ParseRegister(word)) == word
  {
    hide Index;
    var r := ParseRegister(word);
    if r.Register? {
      var inner := if r.pointer then word[1..|word| - 1] else word;
      if r.pointer { Unbracketed(word); }
      Unmarked(inner, r.extended);
    }
  }

  /** How the registers are numbered: r1 to r13, then bp, sp and ip. */
  function NameOf(i: nat): string {
    if i < 13 then "r" + Decimal(i + 1) else if i == 13 then "bp" else if i == 14 then "sp" else "ip"
  }

  lemma RegisterNumbers(i: nat)
    requires i < 16
    ensures ParseRegister("%" + NameOf(i)) == Register(i, false, false)
  {
    NameIs(i);
    RegisterRoundTrip(Register(i, false, false));
    hide ParseRegister;
  }

  lemma NameIs(i: nat)
    requires i < 16
    ensures NameOf(i) == NAMES[i]
  {
    if i < 9 {
      assert Decimal(i + 1) == [Digit(i + 1)];
    } else if i < 13 {
      assert Decimal(i + 1) == Decimal(1) + [Digit(i - 9)];
    }
  }

  /** Operands of the wrong sort are refused. */
  lemma WrongSort(env: E.Env, address: nat, form: Form, args: seq<string>)
    requires match form
             case Pure(_) => false
             case OneReg(_) => |args| == 1 && ParseRegister(args[0]).NoRegister?
             case TwoReg(_) => |args| == 2 && (ParseRegister(args[0]).NoRegister? || ParseRegister(args[1]).NoRegister?)
             case OneImm(_) => |args| == 1 && !ParseType(args[0]).Immediate?
             case OneRegImm(_, _) => |args| == 1 && ParseType(args[0]).Other?
             case TwoRegImm(_, _) => |args| == 2 && (ParseRegister(args[1]).NoRegister? || ParseType(args[0]).Other?)
             case OneRegOneImm(_) =>
               |args| == 2 && (!ParseType(args[0]).Immediate? || ParseRegister(args[1]).NoRegister?)
             case Jump(_, _) => |args| == 1 && !ParseType(args[0]).Immediate?
             case Move(_, _) =>
               |args| == 2 && (ParseRegister(args[0]).NoRegister? || ParseRegister(args[1]).NoRegister?)
    ensures Refuses(InstructionOutput(env, address, form, args))
  {
    hide WithImmediate, TwoRegisters, ParseRegister, ParseType;
  }

  /** What begins with `$` and goes on is an immediate; with `%` or `(%`, a register. */
  lemma TypeIff(word: string)
    ensures ParseType(word).Immediate? <==> |word| >= 2 && word[0] == '$'
    ensures ParseType(word).RegisterType? <==> |word| >= 2 && (word[0] == '%' || (word[0] == '(' && word[1] == '%'))
  {
  }

  lemma RegisterTyped(r: Register)
    requires r.Register? && r.index < 16
    ensures ParseType(RegisterText(r)).RegisterType?
  {
    NamesDiffer(r.index, r.index);
  }

  // ---- fills and strings --------------------------------------------------------------------

  /** An operand in its place, or 0. */
  function NumberAt(args: seq<string>, i: nat): U64 { if i < |args| then ToU64(Strtoll(args[i])) else 0 }

  /** Copy c of a value. */
  predicate CopyIs(b: seq<Byte>, c: nat, value: nat, size: nat) {
    0 <= c * size <= c * size + size <= |b| && IsValue(b[c * size..c * size + size], value)
  }

  predicate EmitsCopies(out: Output, n: nat, value: nat, size: nat) {
    && |out.chunks| == 1 && |out.chunks[0]| == n * size == out.advance && out.exprs == [] && out.errors == 0
    && forall c: nat | c < n :: CopyIs(out.chunks[0], c, value, size)
  }

  /** A data or string directive without operands does nothing. */
  lemma NoOperands(env: E.Env, address: nat, e: Emitter)
    requires e.Data? || e.Strings? || e.TerminatedStrings?
    ensures EmitsNothing(EmitterOutput(env, address, e, []))
  {
  }

  /** .skip, .align and .org emit one byte as often as needed, the low byte of their second operand. */
  predicate EmitsRepeated(out: Output, n: nat, value: nat) {
    EmitsBytes(out, seq(n, _ => value % 256))
  }

  lemma SkipBytes(env: E.Env, address: nat, args: seq<string>)
    ensures var out := EmitterOutput(env, address, Skip, args);
            if 1 <= |args| <= 2 && NumberAt(args, 0) > 0 then EmitsRepeated(out, NumberAt(args, 0), NumberAt(args, 1))
            else Refuses(out)
  {
  }

  /** .align pads to the next multiple, unless a given maximum holds it back. */
  lemma AlignBytes(env: E.Env, address: nat, args: seq<string>)
    ensures var out, align, max := EmitterOutput(env, address, Align, args), NumberAt(args, 0), NumberAt(args, 2);
            if !(1 <= |args| <= 3) || align == 0 then Refuses(out)
            else
              var n := (align - address % align) % align;
              if n > 0 && (max == 0 || n < max) then EmitsRepeated(out, n, NumberAt(args, 1)) else EmitsNothing(out)
  {
  }

  predicate EmitsNothing(out: Output) { out.chunks == [] && out.advance == 0 && out.exprs == [] && out.errors == 0 }

  lemma OrgBytes(env: E.Env, address: nat, args: seq<string>)
    ensures var out := EmitterOutput(env, address, Org, args);
            var until: nat := NumberAt(args, 0);
            if !(1 <= |args| <= 2) || until == 0 then Refuses(out)
            else if until > address then EmitsRepeated(out, until - address, NumberAt(args, 1))
            else EmitsNothing(out)
  {
  }

  /** .fill emits its value in so many bytes as often as said; 0 bytes count as one, and more than 8 are refused. */
  lemma FillBytes(env: E.Env, address: nat, args: seq<string>)
    ensures var out, repeat, size := EmitterOutput(env, address, Fill, args), NumberAt(args, 0), NumberAt(args, 1);
            if !(1 <= |args| <= 3) || size > 8 || repeat == 0 then Refuses(out)
            else EmitsCopies(out, repeat, NumberAt(args, 2), if size == 0 then 1 else size)
  {
    var size := NumberAt(args, 1);
    CopiesBytes(NumberAt(args, 2), if size == 0 then 1 else size, NumberAt(args, 0));
    hide Copies;
  }

  lemma CopiesBytes(value: nat, size: nat, repeat: nat)
    requires size > 0
    ensures EmitsCopies(Bytes(Copies(value, size, repeat)), repeat, value, size)
  {
    hide Copies, CopyIs;
    var b := Copies(value, size, repeat);
    Emitters.CopiesLength(value, size, repeat);
    Commuted(size, repeat);
    forall c: nat | c < repeat ensures CopyIs(b, c, value, size) {
      CopyAt(value, size, repeat, c);
    }
  }

  lemma Commuted(a: nat, b: nat)
    ensures a * b == b * a
  {
  }

  lemma {:induction false} CopyAt(value: nat, size: nat, repeat: nat, c: nat)
    requires c < repeat
    ensures CopyIs(Copies(value, size, repeat), c, value, size)
    decreases c
  {
    hide LittleEndian, IsValue;
    var front, rest := LittleEndian(value, size), Copies(value, size, repeat - 1);
    assert Copies(value, size, repeat) == front + rest;
    if c == 0 {
      LittleEndianAt(value, size);
      FirstSlot(front, rest, size);
    } else {
      CopyAt(value, size, repeat - 1, c - 1);
      LaterSlot(front, rest, c, size);
    }
  }

  /** The number of bytes that come before string i. */
  function Before(args: seq<string>, i: nat, end: nat): nat
    requires i <= |args|
  {
    if i == 0 then 0 else Before(args, i - 1, end) + Long(args[i - 1]) + end
  }

  /** A string without its quotes. */
  function Long(s: string): nat { if |s| >= 2 then |s| - 2 else 0 }

  predicate IsText(b: seq<Byte>, s: string) {
    |b| == Long(s) && forall k: nat | k < |b| :: b[k] == s[k + 1] as nat % 256
  }

  /** Each string stands after those before it, character by character, without its quotes; then its end. */
  lemma StringBytes(env: E.Env, address: nat, args: seq<string>, zero: bool, i: nat)
    requires i < |args|
    ensures var out := EmitterOutput(env, address, if zero then TerminatedStrings else Strings, args);
            && |out.chunks| == 1 && |out.chunks[0]| == out.advance && out.exprs == [] && out.errors == 0
            && HasString(out.chunks[0], args, i, if zero then [0] else [])
  {
    hide Ascii, HasString;
    StringAt(args, if zero then [0] else [], i);
  }

  predicate HasString(b: seq<Byte>, args: seq<string>, i: nat, end: seq<Byte>)
    requires i < |args|
  {
    var at, n := Before(args, i, |end|), Long(args[i]);
    && |b| == Before(args, |args|, |end|) && at + n + |end| <= |b|
    && IsText(b[at..at + n], args[i]) && b[at + n..at + n + |end|] == end
  }

  lemma {:induction false} StringAt(args: seq<string>, end: seq<Byte>, i: nat)
    requires i < |args|
    ensures HasString(Ascii(args, end), args, i, end)
    decreases |args|
  {
    hide HasString, IsText;
    var first, rest := Codes(Unquoted(args[0])), Ascii(args[1..], end);
    assert Ascii(args, end) == (first + end) + rest;
    FirstText(args[0]);
    AsciiLength(args[1..], end);
    if i == 0 {
      FirstString(first, end, rest, args);
    } else {
      StringAt(args[1..], end, i - 1);
      LaterString(first + end, end, rest, args, i);
    }
  }

  lemma FirstString(first: seq<Byte>, end: seq<Byte>, rest: seq<Byte>, args: seq<string>)
    requires args != [] && IsText(first, args[0]) && |rest| == Before(args[1..], |args| - 1, |end|)
    ensures HasString((first + end) + rest, args, 0, end)
  {
    BeforeShift(args, |args|, |end|);
    var b := (first + end) + rest;
    assert b[0..|first|] == first && b[|first|..|first| + |end|] == end;
  }

  lemma LaterString(front: seq<Byte>, end: seq<Byte>, rest: seq<Byte>, args: seq<string>, i: nat)
    requires 0 < i < |args| && |front| == Long(args[0]) + |end| && HasString(rest, args[1..], i - 1, end)
    ensures HasString(front + rest, args, i, end)
  {
    hide IsText;
    BeforeShift(args, i, |end|);
    BeforeShift(args, |args|, |end|);
    var at, n := Before(args[1..], i - 1, |end|), Long(args[i]);
    LaterTwo(front, rest, at, at + n, at + n + |end|);
  }

  lemma LaterTwo(front: seq<Byte>, rest: seq<Byte>, from: nat, middle: nat, to: nat)
    requires from <= middle <= to <= |rest|
    ensures (front + rest)[|front| + from..|front| + middle] == rest[from..middle]
    ensures (front + rest)[|front| + middle..|front| + to] == rest[middle..to]
  {
  }

  lemma FirstText(s: string)
    ensures IsText(Codes(Unquoted(s)), s) && |Codes(Unquoted(s))| == Long(s)
  {
  }

  /** What comes before a string, counted from the first on. */
  lemma {:induction false} BeforeShift(args: seq<string>, i: nat, end: nat)
    requires i <= |args|
    ensures i > 0 ==> Before(args, i, end) == Long(args[0]) + end + Before(args[1..], i - 1, end)
    decreases i
  {
    if i > 1 { BeforeShift(args, i - 1, end); }
  }

  lemma {:induction false} AsciiLength(args: seq<string>, end: seq<Byte>)
    ensures |Ascii(args, end)| == Before(args, |args|, |end|)
  {
    if args != [] {
      AsciiLength(args[1..], end);
      BeforeShift(args, |args|, |end|);
    }
  }
}
