/**
 The bus protocol of a cache refill in lockstep: one outstanding access at a time, no rejected
 write, and no answer taken for another question, for either fill address and any interrupts.
 */
module Protocol {
  import opened Words
  import opened Machine

  /** Memory with a write that is on its way to it. */
  function Put(data: seq<Word>, b: Bus): seq<Word> {
    if b.write && b.address < |data| then data[b.address := b.input] else data
  }

  /** What memory below the cache holds, counting accepted writes that have not reached the RAM yet. */
  function Below(m: Machine): (r: seq<Word>)
    ensures |r| == |m.ram.data|
  {
    Put(Put(m.ram.data, m.ram.bus), m.board.bus)
  }

  /** The CPU sleeps until its read is answered. */
  predicate Awaiting(c: Cpu) { c.dtrMem && !c.busWrite && c.sleep.mem }

  /** The CPU asked for nothing, and a refill it may have begun has not reached the bus. */
  predicate Detached(c: Cpu) { !c.dtrMem && (c.dtrCache ==> c.cacheStatus == 0) }

  function Outstanding(m: Machine): nat {
    (if m.board.bus.read then 1 else 0) + (if m.ram.bus.read then 1 else 0) +
    (if m.board.bus.response then 1 else 0)
  }

  /** The number of accepted words of the victim, while it is being written back. */
  function Accepted(c: Cpu): int { if c.dtrMem then c.cacheStatus - 1 else c.cacheStatus }

  /** Word j of a line is what `below` holds for it, if its address is in memory at all. */
  predicate Agrees(below: seq<Word>, i: LineIndex, line: CacheLine, j: Offset) {
    LineBase(i, line.tag) + j < |below| ==> below[LineBase(i, line.tag) + j] == line.data[j]
  }

  /** Every accepted word of a victim still marked dirty has arrived below the cache. */
  ghost predicate WrittenBack(c: Cpu, below: seq<Word>) {
    c.dtrCache && 1 <= c.cacheStatus <= 32 && c.Victim().valid && c.Victim().dirty ==>
      forall j | 0 <= j < Accepted(c) :: Agrees(below, c.cacheAddress.line, c.Victim(), j)
  }

  /** Word j of a fill is in memory, and x was read from there. */
  predicate FilledWord(c: Cpu, below: seq<Word>, mode: FillMode, j: nat, x: Word) {
    var w := FillBase(mode, c.cacheAddress) + j;
    w < |below| && x == below[w]
  }

  /** The words a fill has stored, and the one on its way into the line, are memory's. */
  ghost predicate Filled(c: Cpu, below: seq<Word>, mode: FillMode) {
    c.dtrCache && c.cacheStatus >= 33 ==>
      && !c.Victim().valid
      && (forall j | 0 <= j < c.cacheStatus - 33 :: FilledWord(c, below, mode, j, c.Victim().data[j]))
      && (!c.dtrMem ==> FilledWord(c, below, mode, c.cacheStatus - 33, c.busData))
  }

  /** The scheduled access is the one the refill position calls for. */
  predicate Scheduled(c: Cpu, mode: FillMode) {
    var v := c.Victim();
    && (c.dtrMem ==> c.dtrCache)
    && (c.dtrCache && 1 <= c.cacheStatus < 32 ==> v.valid && v.dirty)
    && (c.dtrMem && c.busWrite ==>
          && 1 <= c.cacheStatus <= 32 && v.valid && v.dirty
          && c.busAddress == LineBase(c.cacheAddress.line, v.tag) + (c.cacheStatus - 1)
          && c.busData == v.data[c.cacheStatus - 1])
    && (c.dtrMem && !c.busWrite ==>
          c.cacheStatus >= 33 && c.busAddress == FillBase(mode, c.cacheAddress) + (c.cacheStatus - 33))
    && (c.dtrCache && c.Sleeping() ==> Awaiting(c) && !c.sleep.timer && !c.sleep.lock)
  }

  /** All that a refill has done so far is right, given what lies below the cache. */
  ghost predicate OnCourse(c: Cpu, below: seq<Word>, mode: FillMode) {
    Scheduled(c, mode) && WrittenBack(c, below) && Filled(c, below, mode)
  }

  /** The answer on the board is the word that the CPU is waiting for. */
  predicate Answered(m: Machine) {
    && Awaiting(m.cpu) && m.cpu.busAddress < |Below(m)|
    && m.board.bus.output == Below(m)[m.cpu.busAddress]
  }

  /** Where requests and answers are, and whose they are. */
  predicate Bussed(m: Machine) {
    var c, b, r := m.cpu, m.board.bus, m.ram.bus;
    && m.board.hasRam && !r.Output()
    && !(b.read && b.write) && !(r.read && r.write) && !(b.response && b.intp)
    && Outstanding(m) <= 1
    && (b.Output() ==> !r.Input())
    && (b.read ==> Awaiting(c) && b.address == c.busAddress)
    && (r.read ==> (Awaiting(c) && r.address == c.busAddress) || Detached(c))
    && (b.response ==> Detached(c) || Answered(m))
    && (b.write ==> !c.dtrMem)
    && (Awaiting(c) ==> b.read || r.read || b.response || b.intp)
    && (b.Input() && r.Input() ==> r.write || Detached(c))
  }

  ghost predicate Sound(m: Machine, mode: FillMode) {
    Bussed(m) && OnCourse(m.cpu, Below(m), mode)
  }

  /** The state between two ticks: the board is idle, and a busy RAM holds the CPU's own access. */
  ghost predicate Settled(m: Machine, mode: FillMode) {
    && Sound(m, mode)
    && !m.board.bus.Active()
    && (m.ram.bus.read ==> Awaiting(m.cpu))
    && (m.ram.bus.write ==> !m.cpu.dtrMem)
  }

  /** The bus addresses of a refill, from the raw ones: a victim's word goes to its own place. */
  lemma RequestAddress(c: Cpu, mode: FillMode)
    requires c.cacheStatus < 64
    ensures var c', a, v := RefillStep(c, mode), c.cacheAddress, c.Victim();
            if c.cacheStatus < 32 then
              c.cacheStatus > 0 || (v.valid && v.dirty) ==>
                && c'.dtrMem && c'.busWrite && c'.busAddress == Raw(Addr(v.tag, a.line, c.cacheStatus, 0)) / 4
                && c'.busData == v.data[c.cacheStatus]
            else
              && c'.dtrMem && !c'.busWrite && c'.busTries == 0
              && c'.busAddress == if mode.AsWritten? then Raw(a) / 4 + c.cacheStatus
                                  else Raw(Addr(a.tag, a.line, c.cacheStatus - 32, 0)) / 4
  {
    BusWord(c.cacheAddress);
    if c.cacheStatus < 32 {
      BusWord(Addr(c.Victim().tag, c.cacheAddress.line, c.cacheStatus, 0));
    } else {
      BusWord(Addr(c.cacheAddress.tag, c.cacheAddress.line, c.cacheStatus - 32, 0));
    }
  }

  // ---- one device at a time ----------------------------------------------------------------

  lemma TimerSound(m: Machine, mode: FillMode, t: Timer)
    requires Settled(m, mode)
    ensures var m' := TimerStep(m, t);
            && Sound(m', mode) && !m'.board.bus.Active() && Below(m') == Below(m)
            && (m'.ram.bus.Input() && m'.cpu.dtrMem ==> Awaiting(m'.cpu))
            && (m'.ram.bus.read && !Awaiting(m'.cpu) ==> !m'.cpu.dtrCache)
  {
  }

  lemma SleepOnCourse(c: Cpu, below: seq<Word>, mode: FillMode)
    requires OnCourse(c, below, mode) && c.Sleeping()
    ensures OnCourse(SleepStep(c), below, mode) && (Awaiting(SleepStep(c)) <==> Awaiting(c))
  {
  }

  /** An accepted write changes one word below the cache, an accepted read none. */
  lemma MemBelow(m: Machine)
    requires !m.board.bus.Active()
    ensures Below(MemStep(m)) ==
            if m.cpu.busWrite && m.cpu.busAddress < |m.ram.data| then Below(m)[m.cpu.busAddress := m.cpu.busData]
            else Below(m)
  {
  }

  lemma ReadOnCourse(c: Cpu, c': Cpu, below: seq<Word>, mode: FillMode)
    requires OnCourse(c, below, mode) && c.dtrMem && !c.busWrite
    requires c' == c.(busTries := c'.busTries, delay := c'.delay, sleep := c'.sleep)
    requires c'.sleep == Sleep(true, false, false, true)
    ensures OnCourse(c', below, mode)
  {
  }

  lemma WriteOnCourse(c: Cpu, below: seq<Word>, mode: FillMode)
    requires OnCourse(c, below, mode) && c.dtrMem && c.busWrite && !c.Sleeping()
    ensures var below' := if c.busAddress < |below| then below[c.busAddress := c.busData] else below;
            OnCourse(c.(dtrMem := false), below', mode)
  {
    var below' := if c.busAddress < |below| then below[c.busAddress := c.busData] else below;
    var i, v := c.cacheAddress.line, c.Victim();
    forall j | 0 <= j < c.cacheStatus ensures Agrees(below', i, v, j) {
      if j < c.cacheStatus - 1 { assert Agrees(below, i, v, j); }
    }
  }

  lemma MemSound(m: Machine, mode: FillMode)
    requires Sound(m, mode) && !m.board.bus.Active() && !m.ram.bus.Input() && m.cpu.dtrMem && !m.cpu.Sleeping()
    ensures Sound(MemStep(m), mode)
  {
    MemBelow(m);
    if m.cpu.busWrite { WriteOnCourse(m.cpu, Below(m), mode); }
    else { ReadOnCourse(m.cpu, MemStep(m).cpu, Below(m), mode); }
  }

  /** The CPU is about to take a refill step. */
  ghost predicate AtPosition(c: Cpu, below: seq<Word>, mode: FillMode) {
    OnCourse(c, below, mode) && c.dtrCache && !c.dtrMem && !c.Sleeping()
  }

  lemma WriteBackOnCourse(c: Cpu, below: seq<Word>, mode: FillMode)
    requires AtPosition(c, below, mode) && c.cacheStatus < 32
    ensures OnCourse(RefillStep(c, mode), below, mode)
  {
    var c' := RefillStep(c, mode);
    if 1 <= c.cacheStatus {
      forall j | 0 <= j < Accepted(c') ensures Agrees(below, c'.cacheAddress.line, c'.Victim(), j) {
        assert Agrees(below, c.cacheAddress.line, c.Victim(), j);
      }
    }
  }

  lemma FillOnCourse(c: Cpu, below: seq<Word>, mode: FillMode)
    requires AtPosition(c, below, mode) && 33 <= c.cacheStatus < 64
    ensures OnCourse(RefillStep(c, mode), below, mode)
  {
    var c' := RefillStep(c, mode);
    forall j | 0 <= j < c'.cacheStatus - 33 ensures FilledWord(c', below, mode, j, c'.Victim().data[j]) {
      assert FilledWord(c, below, mode, j, c'.Victim().data[j]);
    }
  }

  lemma RefillOnCourse(c: Cpu, below: seq<Word>, mode: FillMode)
    requires AtPosition(c, below, mode)
    ensures OnCourse(RefillStep(c, mode), below, mode)
  {
    if c.cacheStatus < 32 { WriteBackOnCourse(c, below, mode); }
    else if 33 <= c.cacheStatus < 64 { FillOnCourse(c, below, mode); }
  }

  lemma RefillSound(m: Machine, mode: FillMode)
    requires Bussed(m) && AtPosition(m.cpu, Below(m), mode)
    requires !m.board.bus.Active() && !m.ram.bus.read
    ensures Sound(m.(cpu := RefillStep(m.cpu, mode)), mode)
  {
    RefillOnCourse(m.cpu, Below(m), mode);
  }

  lemma WorkSound(m: Machine, mode: FillMode, w: Work)
    requires ValidWork(w)
    requires Sound(m, mode) && !m.cpu.dtrMem && !m.cpu.dtrCache && !m.cpu.Sleeping()
    ensures Sound(m.(cpu := WorkStep(m.cpu, w)), mode)
  {
  }

  lemma CpuSound(m: Machine, mode: FillMode, w: Work)
    requires ValidWork(w)
    requires Sound(m, mode) && !m.board.bus.Active()
    requires m.ram.bus.Input() && m.cpu.dtrMem ==> Awaiting(m.cpu)
    requires m.ram.bus.read && !Awaiting(m.cpu) ==> !m.cpu.dtrCache
    ensures var m' := CpuStep(m, mode, w);
            && Sound(m', mode) && !m'.board.bus.Output()
            && !(m'.board.bus.Input() && m'.ram.bus.Input())
  {
    if m.cpu.Sleeping() { SleepOnCourse(m.cpu, Below(m), mode); }
    else if m.cpu.dtrMem { MemSound(m, mode); }
    else if m.cpu.dtrCache { RefillSound(m, mode); }
    else { WorkSound(m, mode, w); }
  }

  lemma RamSound(m: Machine, mode: FillMode)
    requires Sound(m, mode) && !m.board.bus.Output()
    requires !(m.board.bus.Input() && m.ram.bus.Input())
    ensures var m' := RamStep(m);
            && Sound(m', mode) && !m'.ram.bus.Active() && Below(m') == Below(m)
            && !(m'.board.bus.Input() && m'.board.bus.Output())
  {
    var m' := RamStep(m);
    assert m'.cpu == m.cpu && Below(m') == Below(m);
  }

  /** The word that arrives is the one the refill waits for. */
  lemma AnswerOnCourse(c: Cpu, below: seq<Word>, mode: FillMode, x: Word)
    requires OnCourse(c, below, mode)
    requires Detached(c) || (Awaiting(c) && c.busAddress < |below| && x == below[c.busAddress])
    ensures OnCourse(c.(sleep := c.sleep.(delay := false, mem := false), dtrMem := false, busData := x), below, mode)
  {
    hide FillBase, Agrees;
    var c' := c.(sleep := c.sleep.(delay := false, mem := false), dtrMem := false, busData := x);
    if c.dtrMem {
      forall j | 0 <= j < c.cacheStatus - 33 ensures FilledWord(c', below, mode, j, c'.Victim().data[j]) {
        assert FilledWord(c, below, mode, j, c.Victim().data[j]);
      }
    }
  }

  lemma BoardSound(m: Machine, mode: FillMode)
    requires Sound(m, mode) && !m.ram.bus.Active()
    requires !(m.board.bus.Input() && m.board.bus.Output())
    ensures Settled(BoardStep(m), mode) && Below(BoardStep(m)) == Below(m)
  {
    var m' := BoardStep(m);
    assert Below(m') == Below(m);
    if m.board.bus.response { AnswerOnCourse(m.cpu, Below(m), mode, m.board.bus.output); }
  }

  // ---- whole ticks and whole runs ----------------------------------------------------------

  /** The machine after each device of a tick has run, in order. */
  function AfterCpu(m: Machine, mode: FillMode, e: Event): Machine
    requires ValidWork(e.work)
  {
    CpuStep(TimerStep(m, e.timer), mode, e.work)
  }

  function AfterRam(m: Machine, mode: FillMode, e: Event): Machine
    requires ValidWork(e.work)
  {
    RamStep(AfterCpu(m, mode, e))
  }

  /**
   Inside every tick at most one read is outstanding, the board always finds the RAM idle and so
   rejects nothing, and an answer that reaches a waiting CPU is the word it asked for.
   */
  lemma TickPhases(m: Machine, mode: FillMode, e: Event)
    requires Settled(m, mode) && ValidWork(e.work)
    ensures Settled(Tick(m, mode, e), mode)
    ensures Outstanding(TimerStep(m, e.timer)) <= 1
    ensures Outstanding(AfterCpu(m, mode, e)) <= 1
    ensures Outstanding(AfterRam(m, mode, e)) <= 1
    ensures Outstanding(Tick(m, mode, e)) <= 1
    ensures !AfterRam(m, mode, e).ram.bus.Input()
    ensures var m3 := AfterRam(m, mode, e);
            m3.board.bus.response && m3.cpu.dtrMem ==> Answered(m3)
    ensures var m3 := AfterRam(m, mode, e);
            m3.board.bus.response && !m3.cpu.dtrMem && m3.cpu.dtrCache ==> m3.cpu.cacheStatus == 0
    ensures Below(Tick(m, mode, e)) == Below(AfterCpu(m, mode, e))
  {
    var m1 := TimerStep(m, e.timer);
    TimerSound(m, mode, e.timer);
    CpuSound(m1, mode, e.work);
    RamSound(AfterCpu(m, mode, e), mode);
    BoardSound(AfterRam(m, mode, e), mode);
  }

  /** The protocol holds in every state that a run reaches, whatever the interrupts. */
  lemma {:induction false} RunSettled(m: Machine, mode: FillMode, es: Events)
    requires Settled(m, mode)
    ensures Settled(Run(m, mode, es), mode)
    decreases |es|
  {
    if es != [] {
      TickPhases(m, mode, es[0]);
      RunSettled(Tick(m, mode, es[0]), mode, es[1..]);
    }
  }

  lemma RequestCommutes(m: Machine)
    ensures MemStep(RamStep(m)) == RamStep(MemStep(m))
  {
  }

  /** It makes no difference which of the board's two children runs first. */
  lemma ChildOrder(m: Machine, mode: FillMode, e: Event)
    requires ValidWork(e.work)
    ensures CpuStep(TimerStep(RamStep(m), e.timer), mode, e.work) == AfterRam(m, mode, e)
  {
    var m1 := TimerStep(m, e.timer);
    assert TimerStep(RamStep(m), e.timer) == RamStep(m1);
    assert RamStep(m1).cpu == m1.cpu;
    RequestCommutes(m1);
  }

  /** The machine as it is switched on: nothing scheduled, nothing on any bus. */
  predicate Fresh(m: Machine) {
    && !m.cpu.dtrMem && !m.cpu.dtrCache && !m.cpu.Sleeping()
    && m.board.hasRam && !m.board.bus.Active() && !m.ram.bus.Active()
  }

  lemma FreshSettled(m: Machine, mode: FillMode)
    requires Fresh(m)
    ensures Settled(m, mode)
  {
  }

  /**
   A refill whose last word has arrived holds the 32 consecutive words of memory from the fill
   base on, each in its place; for either fill base.
   */
  lemma CompletedFill(c: Cpu, below: seq<Word>, mode: FillMode)
    requires AtPosition(c, below, mode) && c.cacheStatus == 64
    ensures var c' := RefillStep(c, mode);
            && !c'.dtrCache && Hit(c'.lines, c.cacheAddress)
            && forall j | 0 <= j < 32 :: FilledWord(c, below, mode, j, c'.Victim().data[j])
  {
    var d := RefillStep(c, mode).Victim().data;
    forall j | 0 <= j < 32 ensures FilledWord(c, below, mode, j, d[j]) {
      if j < 31 { assert FilledWord(c, below, mode, j, c.Victim().data[j]); }
    }
  }

  /**
   Out of lockstep a write can be lost: a board that finds the RAM busy keeps what lies below the
   cache exactly when the write on its bus would have changed nothing there.
   */
  lemma RejectedWrite(m: Machine)
    requires m.board.hasRam && m.board.bus.write && m.ram.bus.Input()
    requires m.board.bus.address < |m.ram.data|
    ensures Below(BoardStep(m)) == Below(m) <==>
            m.board.bus.input == Put(m.ram.data, m.ram.bus)[m.board.bus.address]
  {
    var a := m.board.bus.address;
    assert Below(m)[a] == m.board.bus.input;
    assert Below(BoardStep(m)) == Put(m.ram.data, m.ram.bus);
    assert Below(m) == Put(m.ram.data, m.ram.bus)[a := m.board.bus.input];
  }

  /** A tick in which the RAM does not run. */
  function WithoutRam(m: Machine, mode: FillMode): Machine { BoardStep(CpuStep(m, mode, Other)) }

  function FourWithoutRam(m: Machine, mode: FillMode): Machine {
    WithoutRam(WithoutRam(WithoutRam(WithoutRam(m, mode), mode), mode), mode)
  }

  /** A refill about to write back word k of a dirty victim in memory; the board is idle. */
  ghost predicate WritingBackAt(m: Machine, mode: FillMode, k: Offset) {
    var v := m.cpu.Victim();
    && AtPosition(m.cpu, Below(m), mode) && m.cpu.cacheStatus == k && v.valid && v.dirty
    && LineBase(m.cpu.cacheAddress.line, v.tag) + 32 <= |m.ram.data|
    && m.board.hasRam && !m.board.bus.Active() && !m.ram.bus.Output() && !m.ram.bus.read
  }

  /** The first of two such ticks schedules the word. */
  lemma ScheduleTick(m: Machine, mode: FillMode, k: Offset)
    requires WritingBackAt(m, mode, k)
    ensures WithoutRam(m, mode) == m.(cpu := RefillStep(m.cpu, mode))
  {
    hide Filled, WrittenBack;
  }

  /** The second puts it on the bus, where the board forwards it, or rejects it for a RAM that is still busy. */
  lemma ForwardTick(m: Machine, mode: FillMode)
    requires m.cpu.dtrMem && m.cpu.busWrite && !m.cpu.Sleeping() && m.cpu.busAddress < |m.ram.data|
    requires m.board.hasRam && !m.board.bus.Active() && !m.ram.bus.Output() && !m.ram.bus.read
    ensures var m' := WithoutRam(m, mode);
            && m'.cpu == m.cpu.(dtrMem := false)
            && m'.board.hasRam && !m'.board.bus.Active() && m'.ram.data == m.ram.data
            && m'.ram.bus.write && !m'.ram.bus.read && !m'.ram.bus.Output()
            && Below(m') == if m.ram.bus.write then Below(m) else Below(m)[m.cpu.busAddress := m.cpu.busData]
  {
  }

  /** Two ticks of the CPU and the board write one word back, unless the RAM has not taken the last one yet. */
  lemma TwoTicksWithoutRam(m: Machine, mode: FillMode, k: Offset)
    requires WritingBackAt(m, mode, k)
    ensures var m2, i, v := WithoutRam(WithoutRam(m, mode), mode), m.cpu.cacheAddress.line, m.cpu.Victim();
            && m2.cpu.lines == m.cpu.lines && m2.cpu.cacheAddress == m.cpu.cacheAddress
            && m2.cpu.cacheStatus == k + 1 && m2.cpu.dtrCache && !m2.cpu.dtrMem
            && Below(m2) == (if m.ram.bus.write then Below(m) else Below(m)[LineBase(i, v.tag) + k := v.data[k]])
            && (!m.ram.bus.write && k < 31 ==> WritingBackAt(m2, mode, k + 1) && m2.ram.bus.write)
  {
    hide Agrees, WithoutRam;
    var c' := RefillStep(m.cpu, mode);
    ScheduleTick(m, mode, k);
    RefillOnCourse(m.cpu, Below(m), mode);
    ForwardTick(m.(cpu := c'), mode);
    WriteOnCourse(c', Below(m), mode);
  }

  /** Whether the words accepted so far have arrived depends on the last of them. */
  lemma LastArrived(c: Cpu, below: seq<Word>, k: Offset)
    requires c.dtrCache && !c.dtrMem && c.cacheStatus == k + 1 && c.Victim().valid && c.Victim().dirty
    requires forall j | 0 <= j < k :: Agrees(below, c.cacheAddress.line, c.Victim(), j)
    ensures WrittenBack(c, below) <==> Agrees(below, c.cacheAddress.line, c.Victim(), k)
  {
  }

  /**
   If the RAM misses four ticks, the second of two words is rejected and not sent again: the refill goes on as
   if both had arrived, which is so exactly if the second was in memory before.
   */
  lemma SlowRam(m: Machine, mode: FillMode, k: Offset)
    requires WritingBackAt(m, mode, k) && k < 31 && !m.ram.bus.Active()
    ensures var m4 := FourWithoutRam(m, mode);
            var i, v := m.cpu.cacheAddress.line, m.cpu.Victim();
            && m4.cpu.cacheStatus == k + 2 && m4.cpu.Victim() == v && m4.cpu.dtrCache && !m4.cpu.dtrMem
            && Below(m4) == Below(m)[LineBase(i, v.tag) + k := v.data[k]]
            && (WrittenBack(m4.cpu, Below(m4)) <==> Agrees(Below(m), i, v, k + 1))
  {
    hide WithoutRam, Scheduled, Filled;
    var m2 := WithoutRam(WithoutRam(m, mode), mode);
    TwoTicksWithoutRam(m, mode, k);
    TwoTicksWithoutRam(m2, mode, k + 1);
    LastArrived(FourWithoutRam(m, mode).cpu, Below(m2), k + 1);
  }
}
