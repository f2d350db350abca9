/**
 The section that is being assembled, changed in place by the loops of the directives
 (src/cmpl_data.c:3-10, 102-112, 133-218; src/compile.c:320-340).
 */
module Emitters {
  import opened Numerals
  import opened Words
  import opened Layout
  import E = Expr

  method Write(mem: array<Byte>, at: nat, from: seq<Byte>)
    requires at + |from| <= mem.Length
    modifies mem
    ensures mem[..at + |from|] == old(mem[..at]) + from
  {
    for k := 0 to |from|
      invariant mem[..at + k] == old(mem[..at]) + from[..k]
    {
      mem[at + k] := from[k];
    }
  }

  /** The counting loop of .ascii and .asciz. */
  method TotalLength(args: seq<string>, end: seq<Byte>) returns (total: nat)
    ensures total == |Ascii(args, end)|
  {
    total := 0;
    for i := 0 to |args|
      invariant total + |Ascii(args[i..], end)| == |Ascii(args, end)|
    {
      assert args[i..][1..] == args[i + 1..];
      total := total + |Unquoted(args[i])| + |end|;
    }
  }

  lemma Filled(done: seq<Byte>, rest: seq<Byte>, all: seq<Byte>)
    requires done + rest == all && |rest| == 0
    ensures done == all
  {
    assert rest == [] && done + [] == done;
  }

  lemma Moved<T>(done: seq<T>, step: seq<T>, rest: seq<T>)
    ensures done + (step + rest) == (done + step) + rest
  {
  }

  /** The copying loop of .ascii and .asciz. */
  method StringsBuffer(args: seq<string>, end: seq<Byte>) returns (mem: array<Byte>)
    ensures fresh(mem) && mem[..] == Ascii(args, end)
  {
    var total := TotalLength(args, end);
    mem := new Byte[total];
    var at: nat := 0;
    ghost var rest := Ascii(args, end);
    assert mem[..0] == [] && [] + rest == rest;
    for i := 0 to |args|
      invariant rest == Ascii(args[i..], end)
      invariant at + |rest| == mem.Length && mem[..at] + rest == Ascii(args, end)
    {
      assert args[i..][1..] == args[i + 1..];
      var text := Codes(Unquoted(args[i])) + end;
      ghost var later := Ascii(args[i + 1..], end);
      Moved(mem[..at], text, later);
      Write(mem, at, text);
      at, rest := at + |text|, later;
    }
    Filled(mem[..at], rest, Ascii(args, end));
    assert mem[..at] == mem[..];
  }

  /** The loop of .fill. */
  method CopiesBuffer(value: nat, size: nat, repeat: nat) returns (mem: array<Byte>)
    requires size > 0
    ensures fresh(mem) && mem[..] == Copies(value, size, repeat)
  {
    CopiesLength(value, size, repeat);
    mem := new Byte[size * repeat];
    var i: nat := 0;
    ghost var left, rest := repeat, Copies(value, size, repeat);
    assert mem[..0] == [] && [] + rest == rest;
    while i < mem.Length
      invariant rest == Copies(value, size, left)
      invariant i + |rest| == mem.Length && mem[..i] + rest == Copies(value, size, repeat)
    {
      ghost var later := Copies(value, size, left - 1);
      Moved(mem[..i], LittleEndian(value, size), later);
      Write(mem, i, LittleEndian(value, size));
      i, left, rest := i + size, left - 1, later;
    }
    Filled(mem[..i], rest, Copies(value, size, repeat));
    assert mem[..i] == mem[..];
  }

  lemma {:induction false} CopiesLength(value: nat, size: nat, repeat: nat)
    ensures |Copies(value, size, repeat)| == size * repeat
  {
    if repeat > 0 {
      CopiesLength(value, size, repeat - 1);
      assert size * repeat == size + size * (repeat - 1);
    }
  }

  lemma {:induction false} DataLength(env: E.Env, address: nat, args: seq<string>, offset: nat, size: nat)
    ensures |DataOutput(env, address, args, offset, size).chunks[0]| == |args| * size
    decreases |args|
  {
    if args != [] {
      DataLength(env, address, args[1..], offset + size, size);
      assert |args| * size == size + (|args| - 1) * size;
    }
  }

  /** What a data directive has still to add. */
  predicate Remaining(env: E.Env, address: nat, args: seq<string>, at: nat, size: nat,
                      b: seq<Byte>, e: seq<Deferred>, n: nat) {
    DataOutput(env, address, args, at, size) == Output([b], |b|, e, n)
  }

  lemma NextOperand(env: E.Env, address: nat, args: seq<string>, at: nat, size: nat)
    returns (b: seq<Byte>, e: seq<Deferred>, n: nat)
    requires args != []
    ensures var r := Evaluate(env, address, args[0], at, size);
            && Remaining(env, address, args[1..], at + size, size, b, e, n)
            && Remaining(env, address, args, at, size, LittleEndian(r.value, size) + b, r.exprs + e, r.errors + n)
  {
    var rest := DataOutput(env, address, args[1..], at + size, size);
    b, e, n := rest.chunks[0], rest.exprs, rest.errors;
    assert rest.chunks == [b];
  }

  lemma NoOperand(env: E.Env, address: nat, args: seq<string>, at: nat, size: nat,
                  b: seq<Byte>, e: seq<Deferred>, n: nat)
    requires args == [] && Remaining(env, address, args, at, size, b, e, n)
    ensures b == [] && e == [] && n == 0
  {
    assert [b][0] == b;
  }

  class OpenSection {
    var address: nat
    var chunks: seq<seq<Byte>>
    var exprs: seq<Deferred>

    constructor ()
      ensures View() == Empty()
    {
      address, chunks, exprs := 0, [], [];
    }

    ghost function View(): Section
      reads this
    {
      Section(address, chunks, exprs)
    }

    /** helper_insn_add, once the memory is filled, and the advance of the address. */
    method Add(mem: array<Byte>, advance: nat)
      modifies this
      ensures View() == Section(old(address) + advance, old(chunks) + [mem[..]], old(exprs))
    {
      chunks := chunks + [mem[..]];
      address := address + advance;
    }

    /** helper_expr_parse: an unresolved expression is noted for the current address. */
    method ParseExpression(env: E.Env, text: string, offset: nat, size: nat) returns (value: U64, errors: nat)
      modifies this`exprs
      ensures var r := Evaluate(env, address, text, offset, size);
              value == r.value && errors == r.errors && exprs == old(exprs) + r.exprs
    {
      var outcome := E.ParseExpr(E.AsWritten(), env, text);
      match outcome {
        case Overrun => value, errors := 0, 1;
        case Failed(n) => value, errors := 0, n;
        case Text(rendered, unresolved, n) =>
          value, errors := 0, n;
          if !unresolved {
            value := ToU64(Strtoll(rendered));
          } else if size == 0 {
            errors := n + 1;
          } else {
            exprs := exprs + [Deferred(address, offset, size, rendered)];
          }
      }
    }

    /** One operand of a data directive: its value, or zeros for later, in its slot of the buffer. */
    method ParseOperand(env: E.Env, text: string, mem: array<Byte>, at: nat, size: nat) returns (errors: nat)
      requires at + size <= mem.Length
      modifies this`exprs, mem
      ensures var r := Evaluate(env, address, text, at, size);
              && errors == r.errors && exprs == old(exprs) + r.exprs
              && mem[..at + size] == old(mem[..at]) + LittleEndian(r.value, size)
    {
      var value;
      value, errors := ParseExpression(env, text, at, size);
      Write(mem, at, LittleEndian(value, size));
    }

    /** _parse_int: the loop over the operands fills one buffer. */
    method ParseInt(env: E.Env, args: seq<string>, size: nat) returns (errors: nat)
      requires args != []
      modifies this
      ensures var out := DataOutput(env, old(address), args, 0, size);
              View() == Append(old(View()), out) && errors == out.errors
    {
      hide Evaluate, LittleEndian, DataOutput;
      ghost var here := address;
      ghost var all := DataOutput(env, here, args, 0, size);
      ghost var b, e, n := all.chunks[0], all.exprs, all.errors;
      DataLength(env, address, args, 0, size);
      var mem := new Byte[|args| * size];
      var at: nat := 0;
      errors := 0;
      ghost var was, noted := exprs, [];
      assert mem[..0] == [] && [] + b == b && all.chunks == [b]
             && args[0..] == args && was + noted == was && noted + e == e;
      for i := 0 to |args|
        invariant address == here && chunks == old(chunks)
        invariant Remaining(env, here, args[i..], at, size, b, e, n)
        invariant at + |b| == mem.Length && mem[..at] + b == all.chunks[0]
        invariant exprs == was + noted && noted + e == all.exprs
        invariant errors + n == all.errors
      {
        assert args[i..][1..] == args[i + 1..];
        ghost var r := Evaluate(env, here, args[i], at, size);
        b, e, n := NextOperand(env, here, args[i..], at, size);
        Moved(mem[..at], LittleEndian(r.value, size), b);
        Moved(noted, r.exprs, e);
        Moved(was, noted, r.exprs);
        var more := ParseOperand(env, args[i], mem, at, size);
        at, errors, noted := at + size, errors + more, noted + r.exprs;
      }
      NoOperand(env, here, args[|args|..], at, size, b, e, n);
      Filled(mem[..at], b, all.chunks[0]);
      assert mem[..at] == mem[..] && noted + e == noted;
      assert exprs == old(exprs) + all.exprs && mem.Length == all.advance;
      Add(mem, mem.Length);
    }

    /** _parse_ascii and _parse_asciz. */
    method ParseStrings(args: seq<string>, end: seq<Byte>)
      modifies this
      ensures View() == Append(old(View()), Bytes(Ascii(args, end)))
    {
      var mem := StringsBuffer(args, end);
      Add(mem, mem.Length);
    }

    /** _parse_fill. */
    method AddCopies(value: nat, size: nat, repeat: nat)
      requires size > 0
      modifies this
      ensures View() == Append(old(View()), Bytes(Copies(value, size, repeat)))
    {
      var mem := CopiesBuffer(value, size, repeat);
      Add(mem, mem.Length);
    }

    /** memset. */
    method AddRepeated(b: Byte, n: nat)
      modifies this
      ensures View() == Append(old(View()), Bytes(Repeat(b, n)))
    {
      var mem := new Byte[n](_ => b);
      assert mem[..] == Repeat(b, n);
      Add(mem, n);
    }

    /** The directives; instructions emit their few bytes without a loop. */
    method Emit(env: E.Env, e: Emitter, args: seq<string>) returns (errors: nat)
      modifies this
      ensures var out := EmitterOutput(env, old(address), e, args);
              View() == Append(old(View()), out) && errors == out.errors
    {
      if e.Data? && args != [] {
        errors := ParseInt(env, args, e.size);
        return;
      }
      var out := EmitterOutput(env, address, e, args);
      errors := out.errors;
      if e.Strings? && args != [] {
        ParseStrings(args, []);
      } else if e.TerminatedStrings? && args != [] {
        ParseStrings(args, [0]);
      } else if e.Fill? && errors == 0 {
        AddCopies(Number(args, 2), if Number(args, 1) == 0 then 1 else Number(args, 1), Number(args, 0));
      } else if (e.Skip? || e.Align? || e.Org?) && out.chunks != [] {
        AddRepeated(Number(args, 1) % 256, out.advance);
      } else {
        exprs, chunks, address := exprs + out.exprs, chunks + out.chunks, address + out.advance;
      }
    }
  }

  /** The flattening loop: it stays inside the buffer because the address is at least the bytes. */
  method Flatten(s: Section) returns (data: array<Byte>)
    requires |Flat(s.chunks)| <= s.address
    ensures data.Length == s.address && data[..|Flat(s.chunks)|] == Flat(s.chunks)
  {
    data := new Byte[s.address];
    var at: nat := 0;
    for i := 0 to |s.chunks|
      invariant at <= |Flat(s.chunks)| && data[..at] + Flat(s.chunks[i..]) == Flat(s.chunks)
    {
      assert s.chunks[i..][1..] == s.chunks[i + 1..];
      Write(data, at, s.chunks[i]);
      at := at + |s.chunks[i]|;
    }
  }
}
