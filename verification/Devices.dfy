/**
 The devices of the legacy machine as objects that communicate only through each other's status
 bits and bus registers. Every executor does in place what its step function in Machine.dfy says.
 */
module Devices {
  import opened Words
  import M = Machine
  import Memory

  class CpuDevice {
    var dtrCache: bool
    var dtrIntp: bool
    var dtrMem: bool
    var sleep: M.Sleep
    var busWrite: bool
    var busTries: nat
    var busAddress: nat
    var busData: Word
    const lines: array<M.CacheLine>
    var cacheAddress: Addr
    var cacheStatus: M.RefillStatus
    var delay: M.Ticks
    var intpStatus: nat

    /** A CPU as it is switched on: eight invalid lines and nothing scheduled. */
    constructor ()
      ensures fresh(lines) && lines.Length == 8
      ensures forall i | 0 <= i < 8 :: !lines[i].valid
      ensures !dtrCache && !dtrMem && !View().Sleeping()
    {
      var empty := M.CacheLine(false, false, 0, seq(32, _ => ZERO));
      lines := new M.CacheLine[8](_ => empty);
      dtrCache, dtrIntp, dtrMem := false, false, false;
      sleep := M.AWAKE;
      busWrite, busTries, busAddress, busData := false, 0, 0, ZERO;
      cacheAddress, cacheStatus, delay, intpStatus := Addr(0, 0, 0, 0), 0, 0, 0;
    }

    ghost function View(): M.Cpu
      requires lines.Length == 8
      reads this, lines
    {
      M.Cpu(dtrCache, dtrIntp, dtrMem, sleep, busWrite, busTries,
            busAddress, busData, lines[..], cacheAddress, cacheStatus, delay, intpStatus)
    }

    predicate Sleeping()
      reads this
    {
      sleep.delay || sleep.timer || sleep.lock || sleep.mem
    }

    method DtrIntp(id: nat)
      requires lines.Length == 8
      modifies this
      ensures View() == M.DtrIntp(old(View()), id)
    {
      dtrCache, dtrMem := false, false;
      sleep := M.AWAKE;
      dtrIntp := true;
      intpStatus := id;
    }

    method DtrMemRead(addr: nat)
      requires lines.Length == 8
      modifies this
      ensures View() == M.DtrMemRead(old(View()), addr)
    {
      dtrMem := true;
      busWrite, busTries := false, 0;
      busAddress := addr;
    }

    method DtrMemWrite(addr: nat, data: Word)
      requires lines.Length == 8
      modifies this
      ensures View() == M.DtrMemWrite(old(View()), addr, data)
    {
      dtrMem := true;
      busWrite, busTries := true, 0;
      busAddress := addr;
      busData := data;
    }

    method DtrCache(addr: Addr)
      requires lines.Length == 8
      modifies this
      ensures View() == M.DtrCache(old(View()), addr)
    {
      dtrCache := true;
      cacheStatus := 0;
      cacheAddress := addr;
    }

    predicate Hit(addr: Addr)
      requires lines.Length == 8
      reads lines
    {
      lines[addr.line].valid && lines[addr.line].tag == addr.tag
    }

    /** `ok` tells whether the access may go on in this tick. */
    method CacheCheck(addr: Addr, size: M.AccessSize) returns (ok: bool)
      requires lines.Length == 8
      modifies this
      ensures View() == M.CacheCheck(old(View()), addr, size)
      ensures ok == M.Resident(old(View()).lines, addr, size)
    {
      if !Hit(addr) {
        DtrCache(addr);
        return false;
      }
      var last := M.LastByte(addr, size);
      if last.line != addr.line && !Hit(last) {
        DtrCache(last);
        return false;
      }
      return true;
    }

    /** A four-byte store inside one line: the source writes its bytes through a pointer into the line. */
    method CacheWrite(addr: Addr, value: Word)
      requires lines.Length == 8 && !M.Spans(addr, 4)
      modifies lines
      ensures View() == M.CacheWrite(old(View()), addr, value)
    {
      var i := addr.line;
      lines[i] := lines[i].(data := M.StoreBytes(lines[i].data, addr.offset, addr.byte, value), dirty := true);
    }

    /** The parser or the interrupt entry, for one tick. */
    method DoWork(w: M.Work)
      requires lines.Length == 8 && M.ValidWork(w)
      modifies this, lines
      ensures View() == M.WorkStep(old(View()), w)
    {
      match w {
        case Other =>
        case Access(addr, size) => var _ := CacheCheck(addr, size);
        case Store(addr, value) =>
          var ok := CacheCheck(addr, 4);
          if ok { CacheWrite(addr, value); }
        case Delay(n) => sleep, delay := sleep.(delay := true), n;
        case Wait(t) => sleep, delay := sleep.(timer := true), t;
        case Raise(id) => DtrIntp(id);
        case Enter =>
          sleep := M.AWAKE;
          dtrIntp := false;
      }
    }

    method Sleep()
      requires lines.Length == 8
      modifies this
      ensures View() == M.SleepStep(old(View()))
    {
      if sleep.delay {
        delay := if delay == 0 then 0xFFFF else delay - 1;
        if delay == 0 { sleep := sleep.(delay := false); }
      }
    }

    /** After a request: a read puts the CPU to sleep, a write is done with. */
    method Requested()
      requires lines.Length == 8
      modifies this
      ensures View() ==
              if old(busWrite) then old(View()).(dtrMem := false)
              else
                var tries := if old(busTries) < 0xFF then old(busTries) + 1 else old(busTries);
                old(View()).(busTries := tries, delay := tries % 0x100,
                             sleep := old(View()).sleep.(delay := true, mem := true))
    {
      if !busWrite {
        if busTries < 0xFF { busTries := busTries + 1; }
        delay := busTries % 0x100;
        sleep := sleep.(delay := true, mem := true);
      } else {
        dtrMem := false;
      }
    }

    method WriteBackWord(mode: M.FillMode)
      requires lines.Length == 8 && cacheStatus < 32
      modifies this
      ensures View() == M.RefillStep(old(View()), mode)
    {
      var i := cacheAddress.line;
      if cacheStatus == 0 && (!lines[i].valid || !lines[i].dirty) {
        cacheStatus := 32;
        return;
      }
      DtrMemWrite(LineBase(i, lines[i].tag) + cacheStatus, lines[i].data[cacheStatus]);
      cacheStatus := cacheStatus + 1;
    }

    method FillWord(mode: M.FillMode)
      requires lines.Length == 8 && 32 <= cacheStatus < 64
      modifies this, lines
      ensures View() == M.RefillStep(old(View()), mode)
    {
      var i := cacheAddress.line;
      if cacheStatus == 32 { Invalidate(i); } else { SetWord(i, cacheStatus - 33); }
      DtrMemRead(M.FillBase(mode, cacheAddress) + (cacheStatus - 32));
      cacheStatus := cacheStatus + 1;
    }

    method Invalidate(i: LineIndex)
      requires lines.Length == 8
      modifies lines
      ensures View() == old(View()).(lines := old(View()).lines[i := old(View()).lines[i].(valid := false)])
    {
      lines[i] := lines[i].(valid := false);
    }

    /** Put the bus word into a line. */
    method SetWord(i: LineIndex, j: Offset)
      requires lines.Length == 8
      modifies lines
      ensures View() == old(View()).(lines :=
                old(View()).lines[i := old(View()).lines[i].(data := old(View()).lines[i].data[j := old(busData)])])
    {
      var data := lines[i].data;
      assert |data| == 32;
      lines[i] := lines[i].(data := data[j := busData]);
    }

    method FinishFill(mode: M.FillMode)
      requires lines.Length == 8 && cacheStatus == 64
      modifies this, lines
      ensures View() == M.RefillStep(old(View()), mode)
    {
      var i := cacheAddress.line;
      SetWord(i, cacheStatus - 33);
      lines[i] := lines[i].(valid := true, dirty := false, tag := cacheAddress.tag);
      dtrCache := false;
    }

    method Refill(mode: M.FillMode)
      requires lines.Length == 8
      modifies this, lines
      ensures View() == M.RefillStep(old(View()), mode)
    {
      if cacheStatus < 32 { WriteBackWord(mode); }
      else if cacheStatus < 64 { FillWord(mode); }
      else { FinishFill(mode); }
    }
  }

  /** A bus port, shared by the board and the RAM. */
  class BusPort {
    var read: bool
    var write: bool
    var response: bool
    var intp: bool
    var address: nat
    var input: Word
    var output: Word
    var intpId: nat

    ghost function View(): M.Bus
      reads this
    {
      M.Bus(read, write, response, intp, address, input, output, intpId)
    }

    constructor ()
      ensures !View().Active()
    {
      read, write, response, intp := false, false, false, false;
      address, intpId := 0, 0;
      input, output := ZERO, ZERO;
    }

    method Request(isWrite: bool, addr: nat, value: Word)
      requires !read && !write
      modifies this
      ensures View() == old(View()).(write := isWrite, read := !isWrite, address := addr, input := value)
    {
      if isWrite { write := true; } else { read := true; }
      input, address := value, addr;
    }
  }

  /** The legacy board with its CPU and its RAM. */
  class System {
    const cpu: CpuDevice
    const board: BusPort
    const hasRam: bool
    const ram: BusPort
    const data: array<Word>

    ghost predicate Valid() {
      cpu.lines.Length == 8 && board != ram
    }

    ghost function View(): M.Machine
      requires Valid()
      reads cpu, cpu.lines, board, ram, data
    {
      M.Machine(cpu.View(), M.Board(board.View(), hasRam), M.Ram(ram.View(), data[..]))
    }

    constructor (words: nat)
      ensures Valid() && hasRam && data.Length == words
      ensures fresh(cpu) && fresh(cpu.lines) && fresh(board) && fresh(ram) && fresh(data)
      ensures forall mode :: Memory.Consistent(View(), mode)
    {
      cpu := new CpuDevice();
      board := new BusPort();
      ram := new BusPort();
      data := new Word[words](_ => ZERO);
      hasRam := true;
      new;
      forall mode ensures Memory.Consistent(View(), mode) { Memory.FreshConsistent(View(), mode); }
    }

    method CpuMem()
      requires Valid()
      modifies cpu, board
      ensures View() == M.MemStep(old(View()))
    {
      if board.read || board.write { return; }
      board.Request(cpu.busWrite, cpu.busAddress, cpu.busData);
      cpu.Requested();
    }

    method CpuExecutor(mode: M.FillMode, w: M.Work)
      requires Valid() && M.ValidWork(w)
      modifies cpu, cpu.lines, board
      ensures View() == M.CpuStep(old(View()), mode, w)
    {
      if cpu.Sleeping() { cpu.Sleep(); }
      else if cpu.dtrMem { CpuMem(); }
      else if cpu.dtrCache { cpu.Refill(mode); }
      else { cpu.DoWork(w); }
    }

    method RamExecutor()
      requires Valid()
      modifies ram, board, data
      ensures View() == M.RamStep(old(View()))
    {
      if !(ram.read || ram.write || ram.response || ram.intp) { return; }
      if ram.address < data.Length {
        if ram.write {
          data[ram.address] := ram.input;
        } else {
          if board.response || board.intp { return; }
          board.response := true;
          board.output := data[ram.address];
        }
      } else {
        if board.response || board.intp { return; }
        board.intp := true;
        board.intpId := M.INT_MR;
      }
      ram.read, ram.write, ram.response, ram.intp := false, false, false, false;
    }

    method BoardOutput()
      requires Valid()
      modifies cpu, board
      ensures View() == M.BoardOutputStep(old(View()))
    {
      if board.response || board.intp {
        cpu.sleep := cpu.sleep.(delay := false, mem := false);
        if board.response {
          cpu.dtrMem := false;
          cpu.busData := board.output;
        } else {
          cpu.DtrIntp(board.intpId);
        }
        board.response, board.intp := false, false;
      }
    }

    method BoardForward()
      requires Valid()
      modifies board, ram
      ensures View() == M.BoardForwardStep(old(View()))
    {
      if board.read || board.write {
        ram.read, ram.write := board.read, board.write;
        ram.address, ram.input := board.address, board.input;
        board.read, board.write := false, false;
      }
    }

    method BoardExecutor()
      requires Valid()
      modifies cpu, board, ram
      ensures View() == M.BoardStep(old(View()))
    {
      if board.read || board.write {
        if !hasRam {
          if board.response || board.intp { return; }
          board.intp := true;
          board.intpId := M.INT_IO;
          board.read, board.write := false, false;
          return;
        }
        if ram.read || ram.write {
          cpu.sleep := cpu.sleep.(mem := false);
          board.read, board.write := false, false;
          return;
        }
      }
      BoardForward();
      BoardOutput();
    }

    method TimerExecutor(t: M.Timer)
      requires Valid()
      modifies cpu
      ensures View() == M.TimerStep(old(View()), t)
    {
      match t {
        case Silent =>
        case Wakeup => cpu.sleep := cpu.sleep.(timer := false);
        case Interrupt(id) => cpu.DtrIntp(id);
      }
    }

    /** One tick of the scheduler: children before their parent, every device in every tick. */
    method Execute(mode: M.FillMode, e: M.Event)
      requires Valid() && M.ValidWork(e.work)
      modifies cpu, cpu.lines, board, ram, data
      ensures View() == M.Tick(old(View()), mode, e)
    {
      TimerExecutor(e.timer);
      CpuExecutor(mode, e.work);
      RamExecutor();
      BoardExecutor();
    }

    /** A whole run of the scheduler. */
    method ExecuteAll(mode: M.FillMode, es: M.Events)
      requires Valid()
      modifies cpu, cpu.lines, board, ram, data
      ensures View() == M.Run(old(View()), mode, es)
    {
      var i := 0;
      while i < |es|
        invariant 0 <= i <= |es|
        invariant M.Run(View(), mode, es[i..]) == M.Run(old(View()), mode, es)
      {
        Execute(mode, es[i]);
        i := i + 1;
      }
    }

    /**
     A run in place is flat memory to the CPU if every completed fill reads words equal to those of its line,
     as it always does from the line's own words.
     */
    method ExecuteAsMemory(mode: M.FillMode, es: M.Events)
      requires Valid() && Memory.Consistent(View(), mode)
      requires mode.OwnLine? || Memory.AllFillRight(View(), mode, es)
      modifies cpu, cpu.lines, board, ram, data
      ensures Memory.Consistent(View(), mode)
      ensures forall q: Addr | WordOf(q) < data.Length ::
                Memory.Byte(View(), q) ==
                Memory.Flat(Memory.Log(old(View()), mode, es), q, Memory.Byte(old(View()), q))
    {
      Memory.ConsistentIsFlatMemory(View(), mode, es);
      ExecuteAll(mode, es);
    }
  }
}
