/**
 How long a refill takes: without interrupts it runs for an exact number of ticks, touches one
 line only, and two refills make any access of up to four bytes resident.
 */
module Refill {
  import opened Words
  import opened Machine
  import opened Protocol
  import opened Memory

  /** Ticks to the end of a refill at position k with no access scheduled. */
  function FromPosition(k: RefillStatus): nat {
    if k <= 32 then 2 * (32 - k) + 97 else 3 * (64 - k) + 1
  }

  function TicksLeft(c: Cpu): nat {
    if !c.dtrCache then 0
    else if Awaiting(c) then 1 + FromPosition(c.cacheStatus)
    else if c.dtrMem then (if c.busWrite then 1 else 2) + FromPosition(c.cacheStatus)
    else if c.cacheStatus == 0 && !(c.Victim().valid && c.Victim().dirty) then 98
    else FromPosition(c.cacheStatus)
  }

  /** Every word that the fill reads is in memory. */
  predicate FillInMemory(m: Machine, mode: FillMode) { FillBase(mode, m.cpu.cacheAddress) + 32 <= |m.ram.data| }

  /** Every word that is written back is in memory. */
  predicate VictimInMemory(m: Machine) {
    var v := m.cpu.Victim();
    && (v.valid && v.dirty ==> LineBase(m.cpu.cacheAddress.line, v.tag) + 32 <= |m.ram.data|)
    && (m.ram.bus.write ==> m.ram.bus.address < |m.ram.data|)
  }

  ghost predicate UnderWay(m: Machine, mode: FillMode) {
    Settled(m, mode) && m.cpu.dtrCache && VictimInMemory(m)
  }

  /** The CPU is free to work. */
  predicate Free(c: Cpu) { !c.dtrCache && !c.dtrMem && !c.Sleeping() }

  predicate Calm(e: Event) { !e.timer.Interrupt? && ValidWork(e.work) }

  /** Only the line that is being refilled changes. */
  ghost predicate OtherLinesKept(c: Cpu, c': Cpu, addr: Addr) {
    forall i | 0 <= i < 8 && i != addr.line :: c'.lines[i] == c.lines[i]
  }

  /** The refill has nothing to write back, or has done so. */
  predicate Reading(c: Cpu) {
    && !(c.dtrMem && c.busWrite)
    && (c.cacheStatus >= 32 || (c.cacheStatus == 0 && !(c.Victim().valid && c.Victim().dirty)))
  }

  /** The refilled line holds memory's words from the fill base on. */
  ghost predicate Holds(c: Cpu, below: seq<Word>, mode: FillMode) {
    forall j | 0 <= j < 32 :: FilledWord(c, below, mode, j, c.Victim().data[j])
  }

  /** The refill waits for a word that is not in memory. */
  predicate OutOfMemory(m: Machine) { Awaiting(m.cpu) && m.cpu.busAddress >= |m.ram.data| }

  /** The refill has been given up for an interrupt, and its line is invalid. */
  ghost predicate GivenUp(m: Machine, m': Machine, mode: FillMode) {
    && Settled(m', mode) && !m'.cpu.dtrCache && m'.cpu.dtrIntp && m'.cpu.intpStatus == INT_MR
    && m'.cpu.lines == m.cpu.lines && !m.cpu.Victim().valid
  }

  /** One tick of a refill: one tick less to go, and at the end of the last the line is there. */
  ghost predicate Progress(m: Machine, m': Machine, mode: FillMode) {
    && Settled(m', mode) && |m'.ram.data| == |m.ram.data|
    && m'.cpu.cacheAddress == m.cpu.cacheAddress
    && OtherLinesKept(m.cpu, m'.cpu, m.cpu.cacheAddress)
    && TicksLeft(m'.cpu) == TicksLeft(m.cpu) - 1
    && (m'.cpu.dtrCache ==> VictimInMemory(m'))
    && (!m'.cpu.dtrCache ==>
          && Free(m'.cpu) && Hit(m'.cpu.lines, m.cpu.cacheAddress) && !m'.ram.bus.Input()
          && Holds(m'.cpu, Below(m'), mode))
    && (Reading(m.cpu) ==> Below(m') == Below(m) && Reading(m'.cpu))
  }

  /** A refill step of the CPU is all that happens in its tick, apart from the RAM taking a write. */
  lemma PositionTickCpu(m: Machine, mode: FillMode, e: Event)
    requires UnderWay(m, mode) && Calm(e) && !m.cpu.dtrMem
    ensures var m' := Tick(m, mode, e);
            && m'.cpu == RefillStep(m.cpu, mode) && !m'.ram.bus.Input()
            && Below(m') == Below(m)
  {
    TickPhases(m, mode, e);
    var m1 := TimerStep(m, e.timer);
    assert AfterCpu(m, mode, e) == m.(cpu := RefillStep(m.cpu, mode));
  }

  lemma PositionStep(c: Cpu, mode: FillMode)
    requires Scheduled(c, mode) && c.dtrCache && !c.dtrMem
    requires c.cacheStatus >= 33 ==> !c.Victim().valid
    ensures var c' := RefillStep(c, mode);
            && c'.cacheAddress == c.cacheAddress && OtherLinesKept(c, c', c.cacheAddress)
            && TicksLeft(c') == TicksLeft(c) - 1
            && (Reading(c) ==> Reading(c'))
            && (c.cacheStatus < 32 ==> c'.Victim() == c.Victim())
            && (c.cacheStatus >= 32 && c'.dtrCache ==> !c'.Victim().valid)
            && (c'.dtrCache <==> c.cacheStatus < 64)
  {
  }

  lemma PositionTick(m: Machine, mode: FillMode, e: Event)
    requires UnderWay(m, mode) && Calm(e) && !m.cpu.dtrMem
    ensures Progress(m, Tick(m, mode, e), mode)
  {
    TickPhases(m, mode, e);
    PositionTickCpu(m, mode, e);
    PositionStep(m.cpu, mode);
    if m.cpu.cacheStatus == 64 { LastStep(m.cpu, Below(m), mode); }
  }

  /** The last step of a refill leaves a line that holds memory's words. */
  lemma LastStep(c: Cpu, below: seq<Word>, mode: FillMode)
    requires AtPosition(c, below, mode) && c.cacheStatus == 64
    ensures var c' := RefillStep(c, mode); Holds(c', below, mode) && Hit(c'.lines, c.cacheAddress) && Free(c')
  {
    CompletedFill(c, below, mode);
    var c' := RefillStep(c, mode);
    forall j | 0 <= j < 32 ensures FilledWord(c', below, mode, j, c'.Victim().data[j]) {
      assert FilledWord(c, below, mode, j, c'.Victim().data[j]);
    }
  }

  lemma WriteTick(m: Machine, mode: FillMode, e: Event)
    requires UnderWay(m, mode) && Calm(e) && m.cpu.dtrMem && m.cpu.busWrite
    ensures Progress(m, Tick(m, mode, e), mode)
  {
    TickPhases(m, mode, e);
    var m1 := TimerStep(m, e.timer);
    assert AfterCpu(m, mode, e) == MemStep(m1);
    var m' := Tick(m, mode, e);
    assert m'.cpu == m1.cpu.(dtrMem := false);
  }

  lemma RequestTick(m: Machine, mode: FillMode, e: Event)
    requires UnderWay(m, mode) && Calm(e) && m.cpu.dtrMem && !m.cpu.busWrite && !m.cpu.Sleeping()
    ensures Progress(m, Tick(m, mode, e), mode)
  {
    TickPhases(m, mode, e);
    var m1 := TimerStep(m, e.timer);
    assert AfterCpu(m, mode, e) == MemStep(m1);
  }

  lemma AnswerTick(m: Machine, mode: FillMode, e: Event)
    requires UnderWay(m, mode) && Calm(e) && Awaiting(m.cpu) && !OutOfMemory(m)
    ensures Progress(m, Tick(m, mode, e), mode)
  {
    TickPhases(m, mode, e);
    var m1 := TimerStep(m, e.timer);
    assert AfterCpu(m, mode, e) == m1.(cpu := SleepStep(m1.cpu));
  }

  lemma NoAnswerTick(m: Machine, mode: FillMode, e: Event)
    requires UnderWay(m, mode) && Calm(e) && OutOfMemory(m)
    ensures GivenUp(m, Tick(m, mode, e), mode)
  {
    TickPhases(m, mode, e);
    var m1 := TimerStep(m, e.timer);
    assert AfterCpu(m, mode, e) == m1.(cpu := SleepStep(m1.cpu));
  }

  lemma RefillTick(m: Machine, mode: FillMode, e: Event)
    requires UnderWay(m, mode) && Calm(e)
    ensures if OutOfMemory(m) then GivenUp(m, Tick(m, mode, e), mode) else Progress(m, Tick(m, mode, e), mode)
  {
    if !m.cpu.dtrMem { PositionTick(m, mode, e); }
    else if m.cpu.busWrite { WriteTick(m, mode, e); }
    else if OutOfMemory(m) { NoAnswerTick(m, mode, e); }
    else if m.cpu.Sleeping() { AnswerTick(m, mode, e); }
    else { RequestTick(m, mode, e); }
  }

  // ---- whole refills -----------------------------------------------------------------------

  predicate AllCalm(es: Events) { forall i | 0 <= i < |es| :: Calm(es[i]) }

  ghost predicate Finished(m: Machine, m': Machine, mode: FillMode) {
    && Settled(m', mode) && |m'.ram.data| == |m.ram.data| && Free(m'.cpu)
    && Hit(m'.cpu.lines, m.cpu.cacheAddress) && !m'.ram.bus.Input()
    && OtherLinesKept(m.cpu, m'.cpu, m.cpu.cacheAddress)
    && m'.cpu.cacheAddress == m.cpu.cacheAddress && Holds(m'.cpu, Below(m'), mode)
  }

  lemma StaysInMemory(m: Machine, mode: FillMode)
    requires UnderWay(m, mode) && FillInMemory(m, mode)
    ensures !OutOfMemory(m)
  {
  }

  /** A refill ends after exactly `TicksLeft` calm ticks, with the line in place and memory's words in it. */
  lemma {:induction false} RefillRun(m: Machine, mode: FillMode, es: Events)
    requires UnderWay(m, mode) && FillInMemory(m, mode) && AllCalm(es) && |es| <= TicksLeft(m.cpu)
    ensures TicksLeft(Run(m, mode, es).cpu) == TicksLeft(m.cpu) - |es|
    ensures |es| < TicksLeft(m.cpu) ==> Run(m, mode, es).cpu.dtrCache
    ensures |es| == TicksLeft(m.cpu) ==> Finished(m, Run(m, mode, es), mode)
    decreases |es|
  {
    hide Settled, Holds;
    if es != [] {
      var m' := Tick(m, mode, es[0]);
      StaysInMemory(m, mode);
      RefillTick(m, mode, es[0]);
      if m'.cpu.dtrCache {
        RefillRun(m', mode, es[1..]);
      } else {
        assert es[1..] == [];
      }
    }
  }

  /** The filled words are below the end of memory, so a fill that reaches past it is never at its end. */
  lemma NotAtTheEnd(m: Machine, mode: FillMode)
    requires UnderWay(m, mode) && !FillInMemory(m, mode)
    ensures m.cpu.dtrMem || m.cpu.cacheStatus < 64
  {
  }

  /** How a refill ended. */
  ghost predicate Ended(m: Machine, m': Machine, mode: FillMode) {
    && !m'.cpu.dtrCache
    && (Hit(m'.cpu.lines, m.cpu.cacheAddress) <==> FillInMemory(m, mode))
    && (!FillInMemory(m, mode) ==> m'.cpu.dtrIntp && m'.cpu.intpStatus == 2)  // memory access error
  }

  /**
   A calm refill always ends within `TicksLeft` ticks. The line is there exactly if all 32 words from the
   fill base on are in memory; otherwise the refill has been given up for an interrupt.
   */
  lemma RefillEnds(m: Machine, mode: FillMode, es: Events) returns (k: nat)
    requires UnderWay(m, mode) && AllCalm(es) && |es| == TicksLeft(m.cpu)
    ensures 1 <= k <= |es| && Ended(m, Run(m, mode, es[..k]), mode)
  {
    if FillInMemory(m, mode) {
      k := |es|;
      assert es[..k] == es;
      RefillRun(m, mode, es);
    } else {
      k := GivesUp(m, mode, es);
    }
  }

  lemma {:induction false} GivesUp(m: Machine, mode: FillMode, es: Events) returns (k: nat)
    requires UnderWay(m, mode) && !FillInMemory(m, mode) && AllCalm(es) && |es| == TicksLeft(m.cpu)
    ensures 1 <= k <= |es| && Ended(m, Run(m, mode, es[..k]), mode)
    decreases |es|
  {
    hide Settled, Holds, Tick, Ended, TicksLeft, VictimInMemory;
    SomeTicksLeft(m.cpu);
    var m' := Tick(m, mode, es[0]);
    NotAtTheEnd(m, mode);
    RefillTick(m, mode, es[0]);
    OneTick(m, mode, es);
    if OutOfMemory(m) {
      k := 1;
      GivenUpEnded(m, m', mode);
    } else {
      NotLastTick(m, mode, es[0]);
      var j := GivesUp(m', mode, es[1..]);
      k := 1 + j;
      assert es[..k][1..] == es[1..][..j];
      EndedLater(m, m', Run(m', mode, es[1..][..j]), mode);
    }
  }

  lemma SomeTicksLeft(c: Cpu)
    requires c.dtrCache
    ensures TicksLeft(c) >= 1
  {
  }

  lemma GivenUpEnded(m: Machine, m': Machine, mode: FillMode)
    requires GivenUp(m, m', mode) && !FillInMemory(m, mode)
    ensures Ended(m, m', mode)
  {
  }

  lemma EndedLater(m: Machine, m': Machine, end: Machine, mode: FillMode)
    requires Progress(m, m', mode) && Ended(m', end, mode)
    ensures Ended(m, end, mode)
  {
    hide Settled, Holds;
  }

  lemma OneTick(m: Machine, mode: FillMode, es: Events)
    requires es != []
    ensures Run(m, mode, es[..1]) == Tick(m, mode, es[0])
  {
    assert es[..1][1..] == [];
  }

  /** Before its last position a refill goes on. */
  lemma NotLastTick(m: Machine, mode: FillMode, e: Event)
    requires UnderWay(m, mode) && Calm(e) && !OutOfMemory(m) && (m.cpu.dtrMem || m.cpu.cacheStatus < 64)
    ensures Tick(m, mode, e).cpu.dtrCache
  {
    RefillTick(m, mode, e);
    assert TicksLeft(m.cpu) >= 2;
  }

  // ---- what lies below the cache in the end -------------------------------------------------

  /** Memory with the words of a line in their places. */
  function LaidOver(below: seq<Word>, base: nat, words: LineData): (r: seq<Word>)
    ensures |r| == |below|
  {
    seq(|below|, w requires 0 <= w < |below| => if base <= w < base + 32 then words[w - base] else below[w])
  }

  /** A dirty victim is on its way to memory. */
  predicate WritingBack(c: Cpu) { c.dtrCache && c.cacheStatus <= 32 && c.Victim().valid && c.Victim().dirty }

  /** What will lie below the cache once the victim of a refill, if dirty, has been written back. */
  function Eventually(m: Machine): (r: seq<Word>)
    ensures |r| == |m.ram.data|
  {
    var v := m.cpu.Victim();
    if WritingBack(m.cpu) then LaidOver(Below(m), LineBase(m.cpu.cacheAddress.line, v.tag), v.data) else Below(m)
  }

  lemma EventuallyPosition(m: Machine, mode: FillMode, e: Event)
    requires UnderWay(m, mode) && Calm(e) && !m.cpu.dtrMem
    ensures Eventually(Tick(m, mode, e)) == Eventually(m)
  {
    PositionTickCpu(m, mode, e);
    if m.cpu.cacheStatus == 32 && WritingBack(m.cpu) { AllWrittenBack(m.cpu, Below(m)); }
  }

  lemma AllWrittenBack(c: Cpu, below: seq<Word>)
    requires WrittenBack(c, below) && WritingBack(c) && c.cacheStatus == 32 && !c.dtrMem
    ensures LaidOver(below, LineBase(c.cacheAddress.line, c.Victim().tag), c.Victim().data) == below
  {
    var base := LineBase(c.cacheAddress.line, c.Victim().tag);
    forall w | 0 <= w < |below| && base <= w < base + 32 ensures c.Victim().data[w - base] == below[w] {
      assert Agrees(below, c.cacheAddress.line, c.Victim(), w - base);
    }
  }

  lemma EventuallyWrite(m: Machine, mode: FillMode, e: Event)
    requires UnderWay(m, mode) && Calm(e) && m.cpu.dtrMem && m.cpu.busWrite
    ensures Eventually(Tick(m, mode, e)) == Eventually(m)
  {
    TickPhases(m, mode, e);
    var m1 := TimerStep(m, e.timer);
    assert AfterCpu(m, mode, e) == MemStep(m1);
    MemBelow(m1);
    var m' := Tick(m, mode, e);
    assert m'.cpu == m1.cpu.(dtrMem := false);
  }

  lemma EventuallyRead(m: Machine, mode: FillMode, e: Event)
    requires UnderWay(m, mode) && Calm(e) && m.cpu.dtrMem && !m.cpu.busWrite
    ensures Eventually(Tick(m, mode, e)) == Eventually(m)
  {
    TickPhases(m, mode, e);
    RefillTick(m, mode, e);
    var m1 := TimerStep(m, e.timer);
    assert AfterCpu(m, mode, e) == if m.cpu.Sleeping() then m1.(cpu := SleepStep(m1.cpu)) else MemStep(m1);
  }

  /** Every calm tick of a refill leaves as it is what will lie below the cache in the end. */
  lemma EventuallyTick(m: Machine, mode: FillMode, e: Event)
    requires UnderWay(m, mode) && Calm(e)
    ensures Eventually(Tick(m, mode, e)) == Eventually(m)
  {
    if !m.cpu.dtrMem { EventuallyPosition(m, mode, e); }
    else if m.cpu.busWrite { EventuallyWrite(m, mode, e); }
    else { EventuallyRead(m, mode, e); }
  }

  lemma {:induction false} EventuallyRun(m: Machine, mode: FillMode, es: Events)
    requires UnderWay(m, mode) && FillInMemory(m, mode) && AllCalm(es) && |es| <= TicksLeft(m.cpu)
    ensures Eventually(Run(m, mode, es)) == Eventually(m)
    decreases |es|
  {
    hide Settled, Holds, Eventually;
    if es != [] {
      var m' := Tick(m, mode, es[0]);
      StaysInMemory(m, mode);
      RefillTick(m, mode, es[0]);
      EventuallyTick(m, mode, es[0]);
      if m'.cpu.dtrCache { EventuallyRun(m', mode, es[1..]); } else { assert es[1..] == []; }
    }
  }

  /**
   Whatever the fill base and whatever the victim, a refill leaves memory with the victim written back, and
   in word j of the line what that memory holds at the base plus j: no word is skipped, repeated or stale.
   */
  lemma FillRun(m: Machine, mode: FillMode, es: Events)
    requires UnderWay(m, mode) && FillInMemory(m, mode) && AllCalm(es) && |es| == TicksLeft(m.cpu)
    ensures var m', base := Run(m, mode, es), FillBase(mode, m.cpu.cacheAddress);
            && Below(m') == Eventually(m)
            && Hit(m'.cpu.lines, m.cpu.cacheAddress)
            && m'.cpu.lines[m.cpu.cacheAddress.line].data == Eventually(m)[base..base + 32]
  {
    EventuallyRun(m, mode, es);
    RefillRun(m, mode, es);
    var m' := Run(m, mode, es);
    HeldWords(m'.cpu, Below(m'), mode);
  }

  lemma HeldWord(c: Cpu, below: seq<Word>, mode: FillMode, j: Offset)
    requires Holds(c, below, mode) && FillBase(mode, c.cacheAddress) + 32 <= |below|
    ensures c.Victim().data[j] == below[FillBase(mode, c.cacheAddress) + j]
  {
    assert FilledWord(c, below, mode, j, c.Victim().data[j]);
  }

  lemma HeldWords(c: Cpu, below: seq<Word>, mode: FillMode)
    requires Holds(c, below, mode) && FillBase(mode, c.cacheAddress) + 32 <= |below|
    ensures c.Victim().data == below[FillBase(mode, c.cacheAddress)..FillBase(mode, c.cacheAddress) + 32]
  {
    var words := below[FillBase(mode, c.cacheAddress)..FillBase(mode, c.cacheAddress) + 32];
    forall j | 0 <= j < 32 ensures c.Victim().data[j] == words[j] {
      HeldWord(c, below, mode, j);
    }
  }

  /**
   With the fill address of the code, a calm machine that has just missed `a` ends up with the victim
   written back and the word 32 + j past `a` in word j of its line; so it sees memory exactly where those
   two words agree in the memory that the missing machine will have.
   */
  lemma AsWrittenLoad(m: Machine, es: Events, a: Addr, j: Offset)
    requires Settled(m, AsWritten) && Free(m.cpu) && !m.ram.bus.Input()
    requires VictimInMemory(m.(cpu := DtrCache(m.cpu, a))) && WordOf(a) + 64 <= |m.ram.data|
    requires AllCalm(es) && |es| == TicksLeft(DtrCache(m.cpu, a))
    ensures var m0 := m.(cpu := DtrCache(m.cpu, a));
            var m' := Run(m0, AsWritten, es);
            && Hit(m'.cpu.lines, a) && Below(m') == Eventually(m0)
            && m'.cpu.lines[a.line].data[j] == Eventually(m0)[FillBase(AsWritten, a) + j]
            && (m'.cpu.lines[a.line].data[j] == Eventually(m0)[LineBase(a.line, a.tag) + j] <==>
                SourceAgrees(Eventually(m0), AsWritten, a, j))
  {
    hide *;
    var m0 := m.(cpu := DtrCache(m.cpu, a));
    MissUnderWay(m, AsWritten, a);
    MissInMemory(m, a);
    FillRun(m0, AsWritten, es);
    FromSource(Eventually(m0), a, Run(m0, AsWritten, es).cpu.lines[a.line].data, j);
  }

  /** Where the word for word j of a line comes from, by raw address. */
  function Source(mode: FillMode, a: Addr, j: Offset): nat {
    if mode.AsWritten? then Raw(a) / 4 + 32 + j else 32 * (Raw(a) / 128) + j
  }

  lemma SourceIs(mode: FillMode, a: Addr, j: Offset)
    ensures Source(mode, a, j) == FillBase(mode, a) + j
  {
    BusWord(a);
  }

  /** A load after a miss: the words of the line, by raw addresses, in memory with the victim written back. */
  lemma LoadAfterMiss(m: Machine, mode: FillMode, es: Events, a: Addr, j: Offset)
    requires Settled(m, mode) && Free(m.cpu) && !m.ram.bus.Input()
    requires VictimInMemory(m.(cpu := DtrCache(m.cpu, a))) && FillInMemory(m.(cpu := DtrCache(m.cpu, a)), mode)
    requires AllCalm(es) && |es| == TicksLeft(DtrCache(m.cpu, a))
    ensures var m0 := m.(cpu := DtrCache(m.cpu, a));
            var m' := Run(m0, mode, es);
            && Hit(m'.cpu.lines, a) && Below(m') == Eventually(m0) && Source(mode, a, j) < |Below(m')|
            && m'.cpu.lines[a.line].data[j] == Below(m')[Source(mode, a, j)]
  {
    hide *;
    var m0 := m.(cpu := DtrCache(m.cpu, a));
    MissUnderWay(m, mode, a);
    FillRun(m0, mode, es);
    SourceIs(mode, a, j);
    MissFits(m, mode, a);
    Sliced(Eventually(m0), FillBase(mode, a), FillBase(mode, a) + 32, j);
  }

  lemma MissFits(m: Machine, mode: FillMode, a: Addr)
    ensures var m0 := m.(cpu := DtrCache(m.cpu, a));
            m0.cpu.cacheAddress == a && (FillInMemory(m0, mode) <==> FillBase(mode, a) + 32 <= |m.ram.data|)
  {
  }

  /** A four-byte load inside a line filled with the line's own words, byte by byte of raw addresses. */
  lemma BytesAfterMiss(m: Machine, es: Events, a: Addr, k: ByteIndex)
    requires Settled(m, OwnLine) && Free(m.cpu) && !m.ram.bus.Input() && !Spans(a, 4)
    requires VictimInMemory(m.(cpu := DtrCache(m.cpu, a))) && FillInMemory(m.(cpu := DtrCache(m.cpu, a)), OwnLine)
    requires AllCalm(es) && |es| == TicksLeft(DtrCache(m.cpu, a))
    ensures var m', n := Run(m.(cpu := DtrCache(m.cpu, a)), OwnLine, es), Raw(a) + k;
            n / 4 < |Below(m')| && CacheRead(m'.cpu.lines, a).At(k) == Below(m')[n / 4].At(n % 4)
  {
    hide *;
    var q := Advance(a, k);
    LoadAfterMiss(m, OwnLine, es, a, q.offset);
    ReadInside(Run(m.(cpu := DtrCache(m.cpu, a)), OwnLine, es).cpu.lines, a, k);
    InsideLine(a, k);
  }

  lemma InsideLine(a: Addr, k: ByteIndex)
    requires !Spans(a, 4)
    ensures var q, n := Advance(a, k), Raw(a) + k;
            q.line == a.line && n % 4 == q.byte && n / 4 == Source(OwnLine, a, q.offset)
  {
    AccessBytes(a, k);
    BusWord(a);
    BusWord(Advance(a, k));
  }

  /** The words of a victim go to the places of their own raw addresses, and no others change. */
  lemma VictimPlaces(m: Machine, w: nat)
    requires WritingBack(m.cpu) && w < |m.ram.data|
    ensures var a, v := m.cpu.cacheAddress, m.cpu.Victim();
            Eventually(m)[w] == if w / 32 == Raw(Addr(v.tag, a.line, 0, 0)) / 128 then v.data[w % 32] else Below(m)[w]
  {
    var a, v := m.cpu.cacheAddress, m.cpu.Victim();
    BusWord(Addr(v.tag, a.line, 0, 0));
    var base := LineBase(a.line, v.tag);
    assert base == 32 * (8 * v.tag + a.line);
  }

  lemma MissInMemory(m: Machine, a: Addr)
    requires WordOf(a) + 64 <= |m.ram.data|
    ensures FillInMemory(m.(cpu := DtrCache(m.cpu, a)), AsWritten) && DtrCache(m.cpu, a).cacheAddress == a
  {
  }

  /** Words filled from 32 past `a` on are right exactly where the two agree. */
  lemma FromSource(below: seq<Word>, a: Addr, data: LineData, j: Offset)
    requires WordOf(a) + 64 <= |below| && data == below[FillBase(AsWritten, a)..FillBase(AsWritten, a) + 32]
    ensures data[j] == below[FillBase(AsWritten, a) + j]
    ensures data[j] == below[LineBase(a.line, a.tag) + j] <==> SourceAgrees(below, AsWritten, a, j)
  {
    hide LineBase;
  }

  lemma Sliced(s: seq<Word>, low: nat, high: nat, j: nat)
    requires low + j < high <= |s|
    ensures s[low..high][j] == s[low + j]
  {
  }

  /** A miss starts a refill; what will lie below the cache is what does, with the dirty victim laid over. */
  lemma MissUnderWay(m: Machine, mode: FillMode, a: Addr)
    requires Settled(m, mode) && Free(m.cpu) && !m.ram.bus.Input() && VictimInMemory(m.(cpu := DtrCache(m.cpu, a)))
    ensures var m0 := m.(cpu := DtrCache(m.cpu, a));
            var v := m.cpu.lines[a.line];
            && UnderWay(m0, mode)
            && Eventually(m0) == if v.valid && v.dirty then LaidOver(Below(m), LineBase(a.line, v.tag), v.data)
                                 else Below(m)
  {
  }

  /** A miss takes 161 ticks when the victim has to be written back, and 98 when not. */
  lemma MissTicks(c: Cpu, addr: Addr)
    requires Free(c)
    ensures TicksLeft(DtrCache(c, addr)) ==
            if c.lines[addr.line].valid && c.lines[addr.line].dirty then 161 else 98
  {
  }

  lemma {:induction false} RunAppend(m: Machine, mode: FillMode, es: Events, fs: Events)
    ensures Run(m, mode, es + fs) == Run(Run(m, mode, es), mode, fs)
    decreases |es|
  {
    if es == [] {
      assert es + fs == fs;
    } else {
      assert (es + fs)[1..] == es[1..] + fs;
      RunAppend(Tick(m, mode, es[0]), mode, es[1..], fs);
    }
  }

  /** The first and the last byte of an access lie in one line or in lines of different index. */
  lemma AdjacentLines(a: Addr, size: AccessSize)
    ensures Spans(a, size) <==> !(LastByte(a, size).line == a.line && LastByte(a, size).tag == a.tag)
  {
  }

  /** Every word that a fill for this address reads is in memory. */
  predicate SourceInMemory(m: Machine, mode: FillMode, a: Addr) { FillBase(mode, a) + 32 <= |m.ram.data| }

  /** The line is there, or can be filled. */
  predicate Fetchable(m: Machine, mode: FillMode, a: Addr) { Hit(m.cpu.lines, a) || SourceInMemory(m, mode, a) }

  /** The CPU retries one access, for which the fills, if any, read words in memory. */
  ghost predicate Retrying(m: Machine, mode: FillMode, es: Events, a: Addr, size: AccessSize) {
    && AllCalm(es) && (forall i | 0 <= i < |es| :: es[i].work == Access(a, size))
    && Settled(m, mode) && InMemory(m.cpu.lines, Below(m)) && Free(m.cpu)
    && Fetchable(m, mode, a) && Fetchable(m, mode, LastByte(a, size))
    && (m.ram.bus.Input() ==> m.ram.bus.address < |m.ram.data|)
  }

  /** The tick in which an access misses. */
  lemma MissTick(m: Machine, mode: FillMode, e: Event, addr: Addr)
    requires Settled(m, mode) && InMemory(m.cpu.lines, Below(m))
    requires Free(m.cpu) && Calm(e) && SourceInMemory(m, mode, addr)
    requires m.ram.bus.Input() ==> m.ram.bus.address < |m.ram.data|
    requires WorkStep(m.cpu, e.work) == DtrCache(m.cpu, addr)
    ensures var m1 := Tick(m, mode, e);
            && m1.cpu == DtrCache(m.cpu, addr) && |m1.ram.data| == |m.ram.data|
            && UnderWay(m1, mode) && FillInMemory(m1, mode) && 98 <= TicksLeft(m1.cpu) <= 161
  {
    var m1 := Tick(m, mode, e);
    TickPhases(m, mode, e);
    TickInMemory(m, mode, e);
    assert TimerStep(m, e.timer) == m;
    assert AfterCpu(m, mode, e) == m.(cpu := DtrCache(m.cpu, addr));
    assert m1.cpu == DtrCache(m.cpu, addr) && !m1.ram.bus.Input();
    assert LineFits(Below(m1), addr.line, m1.cpu.lines[addr.line]);
    MissTicks(m.cpu, addr);
  }

  /** One round: the access misses `addr`, and 1 + 161 or 1 + 98 ticks later the line is resident. */
  lemma OneRefill(m: Machine, mode: FillMode, es: Events, a: Addr, size: AccessSize, addr: Addr) returns (k: nat)
    requires Retrying(m, mode, es, a, size) && |es| >= 162
    requires CacheCheck(m.cpu, a, size) == DtrCache(m.cpu, addr) && (addr == a || addr == LastByte(a, size))
    ensures 1 <= k <= 162
    ensures Retrying(Run(m, mode, es[..k]), mode, es[k..], a, size)
    ensures Hit(Run(m, mode, es[..k]).cpu.lines, addr)
    ensures OtherLinesKept(m.cpu, Run(m, mode, es[..k]).cpu, addr)
  {
    hide InMemory, Settled, Tick, VictimInMemory, Advance;
    AdjacentLines(a, size);
    MissTick(m, mode, es[0], addr);
    var m1 := Tick(m, mode, es[0]);
    k := 1 + TicksLeft(m1.cpu);
    RefillRun(m1, mode, es[1..k]);
    assert es[..k][1..] == es[1..k];
    RunInMemory(m, mode, es[..k]);
  }

  /**
   Retrying an access makes it resident within two refills: the second cannot evict the first
   line, because the two lines of one access never share an index, not even across the wrap of
   the address space.
   */
  lemma TwoRefills(m: Machine, mode: FillMode, es: Events, a: Addr, size: AccessSize) returns (k: nat)
    requires Retrying(m, mode, es, a, size) && |es| >= 324
    ensures k <= 324
    ensures Resident(Run(m, mode, es[..k]).cpu.lines, a, size)
    ensures Retrying(Run(m, mode, es[..k]), mode, es[k..], a, size)
  {
    hide Run, Tick, InMemory, Settled, Fetchable, Advance, OtherLinesKept;
    AdjacentLines(a, size);
    if Hit(m.cpu.lines, a) {
      k := SecondLine(m, mode, es, a, size);
    } else {
      var j := OneRefill(m, mode, es, a, size, a);
      var m1 := Run(m, mode, es[..j]);
      var i := SecondLine(m1, mode, es[j..], a, size);
      RunSplit(m, mode, es, j, i);
      k := j + i;
    }
  }

  /** With the first line in place, at most one refill is left. */
  lemma SecondLine(m: Machine, mode: FillMode, es: Events, a: Addr, size: AccessSize) returns (k: nat)
    requires Retrying(m, mode, es, a, size) && |es| >= 162 && Hit(m.cpu.lines, a)
    ensures k <= 162
    ensures Resident(Run(m, mode, es[..k]).cpu.lines, a, size)
    ensures Retrying(Run(m, mode, es[..k]), mode, es[k..], a, size)
  {
    AdjacentLines(a, size);
    if Resident(m.cpu.lines, a, size) {
      k := 0;
      assert es[..0] == [] && es[0..] == es;
    } else {
      k := OneRefill(m, mode, es, a, size, LastByte(a, size));
    }
  }

  lemma RunSplit(m: Machine, mode: FillMode, es: Events, j: nat, i: nat)
    requires j + i <= |es|
    ensures Run(m, mode, es[..j + i]) == Run(Run(m, mode, es[..j]), mode, es[j..][..i])
    ensures es[j..][i..] == es[j + i..]
  {
    assert es[..j] + es[j..][..i] == es[..j + i];
    RunAppend(m, mode, es[..j], es[j..][..i]);
  }

  // ---- the fill address as written, at an input ---------------------------------------------

  /** A machine just switched on, with 64 words of RAM that are 0 except for number 32. */
  function SmallMachine(): Machine {
    var idle := Bus(false, false, false, false, 0, ZERO, ZERO, 0);
    var empty := CacheLine(false, false, 0, seq(32, _ => ZERO));
    var cpu := Cpu(false, false, false, AWAKE, false, 0, 0, ZERO, seq(8, _ => empty), Addr(0, 0, 0, 0), 0, 0, 0);
    Machine(cpu, Board(idle, true), Ram(idle, seq(64, i => if i == 32 then Word(1, 0, 0, 0) else ZERO)))
  }

  lemma SmallMachineIs(m: Machine)
    requires m == SmallMachine()
    ensures Fresh(m) && !m.cpu.lines[0].valid && |m.ram.data| == 64
    ensures m.ram.data[0] == ZERO && m.ram.data[32] == Word(1, 0, 0, 0)
  {
  }

  /** A miss at address 0 of a machine just switched on fills its line from word 32 on. */
  lemma FirstFill(m: Machine, es: Events, a: Addr)
    requires Fresh(m) && a == Addr(0, 0, 0, 0) && !m.cpu.lines[0].valid && |m.ram.data| >= 64
    requires AllCalm(es) && |es| == 98
    ensures var m' := Run(m.(cpu := DtrCache(m.cpu, a)), AsWritten, es);
            && Hit(m'.cpu.lines, a) && m'.cpu.lines[0].data[0] == m.ram.data[32] && Below(m') == m.ram.data
  {
    hide Run, Settled, Holds, WordOf, LineBase, Eventually;
    FirstWord(a);
    FreshSettled(m, AsWritten);
    MissUnderWay(m, AsWritten, a);
    MissTicks(m.cpu, a);
    FillRun(m.(cpu := DtrCache(m.cpu, a)), AsWritten, es);
    Sliced(m.ram.data, 32, 64, 0);
  }

  lemma FirstWord(a: Addr)
    requires a == Addr(0, 0, 0, 0)
    ensures WordOf(a) == 0
  {
  }

  /** After a miss at address 0 its line holds word 32 in the place of word 0. */
  lemma WrongWord(m: Machine, es: Events, a: Addr)
    requires m == SmallMachine() && a == Addr(0, 0, 0, 0) && AllCalm(es) && |es| == 98
    ensures var m' := Run(m.(cpu := DtrCache(m.cpu, a)), AsWritten, es);
            && Hit(m'.cpu.lines, a) && m'.cpu.lines[0].data[0] == Word(1, 0, 0, 0)
            && Below(m') == m.ram.data && m.ram.data[0] == ZERO
  {
    hide Run, SmallMachine;
    SmallMachineIs(m);
    FirstFill(m, es, a);
  }

  // ---- a write lost out of lockstep, at an input --------------------------------------------

  /** A refill about to write back a line that begins with two ones over zeros, with nothing on any bus. */
  predicate AboutToWriteBack(m: Machine) {
    var c, v := m.cpu, m.cpu.Victim();
    && c.dtrCache && c.cacheStatus == 0 && !c.dtrMem && !c.Sleeping()
    && m.board.hasRam && !m.board.bus.Active() && !m.ram.bus.Active()
    && c.cacheAddress.line == 0 && v.valid && v.dirty && v.tag == 0
    && v.data[0] == Word(1, 0, 0, 0) && v.data[1] == Word(1, 0, 0, 0)
    && |m.ram.data| == 64 && m.ram.data[0] == ZERO && m.ram.data[1] == ZERO
  }

  lemma FirstPosition(m: Machine, mode: FillMode)
    requires AboutToWriteBack(m)
    ensures AtPosition(m.cpu, Below(m), mode)
  {
    hide LineBase, FillBase, WordOf, Agrees, FilledWord;
  }

  lemma FirstLine(c: Cpu)
    requires c.cacheAddress.line == 0 && c.Victim().tag == 0
    ensures LineBase(c.cacheAddress.line, c.Victim().tag) == 0
  {
  }

  /** The refill has gone on to word 2, but only word 0 has arrived. */
  predicate LostOne(m: Machine) {
    && m.cpu.cacheStatus == 2 && !m.cpu.dtrMem && m.cpu.Victim().data[1] == Word(1, 0, 0, 0)
    && |Below(m)| == 64 && Below(m)[0] == Word(1, 0, 0, 0) && Below(m)[1] == ZERO
  }

  /** After four ticks in which the RAM does not run, word 0 has been written back, and word 1 is lost. */
  lemma LostWord(m: Machine, mode: FillMode)
    requires AboutToWriteBack(m)
    ensures LostOne(FourWithoutRam(m, mode))
  {
    hide FourWithoutRam, AtPosition, LineBase, Agrees, WrittenBack;
    FirstLine(m.cpu);
    FirstPosition(m, mode);
    SlowRam(m, mode, 0);
  }
}
