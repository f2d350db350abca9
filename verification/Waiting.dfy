/**
 How long the CPU sleeps and what interrupts it (src/kyanite_legacy.c:312-317, 364-384, 415-462): delays,
 waits for a timer, and requests that are rejected or have no device.
 */
module Waiting {
  import opened Words
  import opened Machine
  import opened Protocol

  // ---- delays -------------------------------------------------------------------------------

  /** A counted sleep of n ticks; the count wraps at 0. */
  function Span(n: Ticks): nat { if n == 0 then 0x1_0000 else n }

  function Slept(c: Cpu, k: nat): Cpu
    decreases k
  {
    if k == 0 then c else Slept(SleepStep(c), k - 1)
  }

  /** The delay bit is set for exactly so many steps; no other sleep is affected. */
  lemma {:induction false} SleepsFor(c: Cpu, k: nat)
    requires c.sleep.delay && k <= Span(c.delay)
    ensures Slept(c, k).sleep == c.sleep.(delay := k < Span(c.delay))
    ensures Slept(c, k) == c.(sleep := Slept(c, k).sleep, delay := Slept(c, k).delay)
    decreases k
  {
    if k > 0 {
      var c' := SleepStep(c);
      if k == 1 { assert Slept(c', 0) == c'; } else { SleepsFor(c', k - 1); }
    }
  }

  predicate Quiet(e: Event) { e.timer.Silent? && ValidWork(e.work) }

  /** A write on its way to the RAM will be taken. */
  predicate Taken(m: Machine) { m.ram.bus.Input() ==> m.ram.bus.address < |m.ram.data| }

  /** Nobody wakes a CPU that asked for nothing. */
  lemma QuietTick(m: Machine, mode: FillMode, e: Event)
    requires Settled(m, mode) && Taken(m) && !m.cpu.dtrMem && m.cpu.Sleeping() && Quiet(e)
    ensures Settled(Tick(m, mode, e), mode) && !Tick(m, mode, e).ram.bus.Input()
    ensures Tick(m, mode, e).cpu == SleepStep(m.cpu)
  {
    TickPhases(m, mode, e);
    assert AfterCpu(m, mode, e) == m.(cpu := SleepStep(m.cpu));
    assert !m.ram.bus.read && !m.board.bus.Output();
  }

  lemma {:induction false} QuietRun(m: Machine, mode: FillMode, es: Events)
    requires Settled(m, mode) && Taken(m) && !m.cpu.dtrMem && m.cpu.sleep.delay && |es| <= Span(m.cpu.delay)
    requires forall i | 0 <= i < |es| :: Quiet(es[i])
    ensures Settled(Run(m, mode, es), mode) && Run(m, mode, es).cpu == Slept(m.cpu, |es|)
    decreases |es|
  {
    if es != [] {
      var m' := Tick(m, mode, es[0]);
      QuietTick(m, mode, es[0]);
      if es[1..] == [] { assert Slept(m'.cpu, 0) == m'.cpu; } else { QuietRun(m', mode, es[1..]); }
    }
  }

  /** The CPU is free to work. */
  predicate Idle(m: Machine) { !m.cpu.dtrCache && !m.cpu.dtrMem && !m.cpu.Sleeping() }

  lemma WorkTick(m: Machine, mode: FillMode, e: Event)
    requires Settled(m, mode) && Taken(m) && Idle(m) && Quiet(e) && (e.work.Delay? || e.work.Wait?)
    ensures Settled(Tick(m, mode, e), mode) && !Tick(m, mode, e).ram.bus.Input()
    ensures Tick(m, mode, e).cpu == WorkStep(m.cpu, e.work)
  {
    TickPhases(m, mode, e);
    assert AfterCpu(m, mode, e) == m.(cpu := WorkStep(m.cpu, e.work));
    assert !m.ram.bus.read && !m.board.bus.Output();
  }

  /** A delay of n keeps the CPU asleep for n further ticks, and one of 0 for 65536. */
  lemma DelayRun(m: Machine, mode: FillMode, n: Ticks, es: Events)
    requires Settled(m, mode) && Taken(m) && Idle(m) && |es| <= (if n == 0 then 0x1_0000 else n)
    requires forall i | 0 <= i < |es| :: Quiet(es[i])
    ensures var m' := Run(Tick(m, mode, Event(Silent, Delay(n))), mode, es);
            && (m'.cpu.Sleeping() <==> |es| < if n == 0 then 0x1_0000 else n)
            && m'.cpu.lines == m.cpu.lines && !m'.cpu.dtrCache && !m'.cpu.dtrMem
  {
    WorkTick(m, mode, Event(Silent, Delay(n)));
    var m1 := Tick(m, mode, Event(Silent, Delay(n)));
    QuietRun(m1, mode, es);
    SleepsFor(m1.cpu, |es|);
  }

  // ---- waits --------------------------------------------------------------------------------

  lemma {:induction false} AsleepRun(m: Machine, mode: FillMode, es: Events)
    requires Settled(m, mode) && Taken(m) && !m.cpu.dtrMem && m.cpu.sleep == AWAKE.(timer := true)
    requires forall i | 0 <= i < |es| :: Quiet(es[i])
    ensures Settled(Run(m, mode, es), mode) && Run(m, mode, es).cpu == m.cpu
    decreases |es|
  {
    if es != [] {
      QuietTick(m, mode, es[0]);
      AsleepRun(Tick(m, mode, es[0]), mode, es[1..]);
    }
  }

  /** A wait lasts, however long, until its timer wakes the CPU, and no longer. */
  lemma WaitRun(m: Machine, mode: FillMode, t: Ticks, es: Events)
    requires Settled(m, mode) && Taken(m) && Idle(m) && forall i | 0 <= i < |es| :: Quiet(es[i])
    ensures var m' := Run(Tick(m, mode, Event(Silent, Wait(t))), mode, es);
            m'.cpu.Sleeping() && m'.cpu.delay == t && !TimerStep(m', Wakeup).cpu.Sleeping()
  {
    WorkTick(m, mode, Event(Silent, Wait(t)));
    AsleepRun(Tick(m, mode, Event(Silent, Wait(t))), mode, es);
  }

  /** A timer ends waits only, not delays or what the CPU waits for from the bus. */
  lemma WakesWaits(m: Machine)
    ensures var s := m.cpu.sleep;
            TimerStep(m, Wakeup) == m.(cpu := m.cpu.(sleep := Sleep(s.delay, false, s.lock, s.mem)))
  {
  }

  // ---- requests that come to nothing --------------------------------------------------------

  /** A rejected read is tried again after as many ticks as tries so far, at most 255, this one counted. */
  lemma RejectedRead(m: Machine, k: nat)
    requires m.cpu.dtrMem && !m.cpu.busWrite && !m.cpu.Sleeping() && m.cpu.busTries <= 0xFF
    requires m.board.hasRam && !m.board.bus.Active() && m.ram.bus.Input()
    requires k <= if m.cpu.busTries < 0xFF then m.cpu.busTries + 1 else 0xFF
    ensures var c := BoardStep(MemStep(m)).cpu;
            && c.dtrMem && c.busAddress == m.cpu.busAddress && !BoardStep(MemStep(m)).board.bus.Input()
            && (Slept(c, k).Sleeping() <==> k < if m.cpu.busTries < 0xFF then m.cpu.busTries + 1 else 0xFF)
  {
    SleepsFor(BoardStep(MemStep(m)).cpu, k);
  }

  /** A read without a RAM ends after two ticks with interrupt 3, the I/O access error. */
  lemma AbsentRam(m: Machine, mode: FillMode, e1: Event, e2: Event)
    requires m.cpu.dtrMem && !m.cpu.busWrite && !m.cpu.Sleeping() && Quiet(e1) && Quiet(e2)
    requires !m.board.hasRam && !m.board.bus.Active() && !m.ram.bus.Active()
    ensures Interrupted(Tick(Tick(m, mode, e1), mode, e2).cpu, 3)
  {
    var m1 := Tick(m, mode, e1);
    assert AfterCpu(m, mode, e1) == MemStep(m);
    assert m1.cpu == MemStep(m).cpu && m1.board.bus.intp && !m1.board.bus.Input() && !m1.ram.bus.Active();
    assert AfterCpu(m1, mode, e2) == m1.(cpu := SleepStep(m1.cpu));
  }

  /** An interrupt is all that is left to do, and its number is noted. */
  predicate Interrupted(c: Cpu, id: nat) {
    c.dtrIntp && !c.dtrCache && !c.dtrMem && c.sleep == Sleep(false, false, false, false) && c.intpStatus == id
  }

  /** A timer's interrupt and one that is raised come through with their numbers. */
  lemma InterruptNumber(m: Machine, id: nat)
    ensures Interrupted(TimerStep(m, Interrupt(id)).cpu, id) && Interrupted(WorkStep(m.cpu, Raise(id)), id)
    ensures TimerStep(m, Interrupt(id)).cpu.lines == m.cpu.lines
  {
  }

  /** Entering its handler ends an interrupt: the CPU is free again, and its cache is as it was. */
  lemma Entered(m: Machine, id: nat)
    ensures var c := WorkStep(TimerStep(m, Interrupt(id)).cpu, Enter);
            Idle(m.(cpu := c)) && !c.dtrIntp && c.lines == m.cpu.lines
  {
  }

  /** A read outside of memory ends with interrupt 2, the memory access error. */
  lemma OutOfRange(m: Machine, mode: FillMode, e: Event)
    requires Settled(m, mode) && Awaiting(m.cpu) && m.ram.bus.read && m.cpu.busAddress >= |m.ram.data| && Quiet(e)
    ensures Interrupted(Tick(m, mode, e).cpu, 2)
  {
    TickPhases(m, mode, e);
    assert AfterCpu(m, mode, e) == m.(cpu := SleepStep(m.cpu));
  }
}
