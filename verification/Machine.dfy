/**
 The legacy machine as a value: the CPU's cache, bus port and detours, the board's bus and the
 RAM, with one step function per device executor (src/kyanite_legacy.c). The classes in
 Devices.dfy run the same steps in place; the laws are proved about these functions.
 */
module Machine {
  import opened Words

  const INT_MR := 2
  const INT_IO := 3

  type LineData = s: seq<Word> | |s| == 32 witness seq(32, _ => ZERO)

  datatype CacheLine = CacheLine(valid: bool, dirty: bool, tag: Tag, data: LineData)

  type CacheLines = s: seq<CacheLine> | |s| == 8
    witness seq(8, _ => CacheLine(false, false, 0, seq(32, _ => ZERO)))

  type Ticks = n: nat | n < 0x1_0000

  /** Position of a refill: below 32 write-back, below 64 fill, 64 the last word. */
  type RefillStatus = n: nat | n <= 64

  /** The CPU_SLEEP bits: a counted delay, a timer, a lock, an answer from memory. */
  datatype Sleep = Sleep(delay: bool, timer: bool, lock: bool, mem: bool)

  const AWAKE := Sleep(false, false, false, false)

  /** The status bits and registers of the CPU that the cache, the bus and the detours use. */
  datatype Cpu = Cpu(
    dtrCache: bool, dtrIntp: bool, dtrMem: bool,
    sleep: Sleep,
    busWrite: bool,      // bit 0x1000 of bus_status
    busTries: nat,       // low byte of bus_status
    busAddress: nat, busData: Word,
    lines: CacheLines, cacheAddress: Addr, cacheStatus: RefillStatus,
    delay: Ticks, intpStatus: nat)
  {
    predicate Sleeping() { sleep != AWAKE }

    /** The line a refill works on. */
    function Victim(): CacheLine { lines[cacheAddress.line] }
  }

  /** A bus port: what it is processing, and the words on it. */
  datatype Bus = Bus(read: bool, write: bool, response: bool, intp: bool,
                     address: nat, input: Word, output: Word, intpId: nat)
  {
    predicate Input() { read || write }
    predicate Output() { response || intp }
    predicate Active() { Input() || Output() }
  }

  /** `hasRam` is false when the board's `ram_id` is 0xFF. */
  datatype Board = Board(bus: Bus, hasRam: bool)

  datatype Ram = Ram(bus: Bus, data: seq<Word>)

  datatype Machine = Machine(cpu: Cpu, board: Board, ram: Ram)

  /** Which address the fill reads: the one in the code, or the missed line's own words. */
  datatype FillMode = AsWritten | OwnLine

  function FillBase(mode: FillMode, addr: Addr): nat {
    match mode
    case AsWritten => WordOf(addr) + 32
    case OwnLine => LineBase(addr.line, addr.tag)
  }

  // ---- detours -----------------------------------------------------------------------------

  function DtrIntp(c: Cpu, id: nat): Cpu {
    c.(dtrCache := false, dtrMem := false, dtrIntp := true, intpStatus := id, sleep := AWAKE)
  }

  function DtrMemRead(c: Cpu, addr: nat): Cpu {
    c.(dtrMem := true, busWrite := false, busTries := 0, busAddress := addr)
  }

  function DtrMemWrite(c: Cpu, addr: nat, data: Word): Cpu {
    c.(dtrMem := true, busWrite := true, busTries := 0, busAddress := addr, busData := data)
  }

  function DtrCache(c: Cpu, addr: Addr): Cpu {
    c.(dtrCache := true, cacheStatus := 0, cacheAddress := addr)
  }

  // ---- cache access ------------------------------------------------------------------------

  predicate Hit(lines: CacheLines, addr: Addr) {
    lines[addr.line].valid && lines[addr.line].tag == addr.tag
  }

  type AccessSize = n: nat | 1 <= n <= 4 witness 4

  function LastByte(addr: Addr, size: AccessSize): Addr { Advance(addr, size - 1) }

  predicate Spans(addr: Addr, size: AccessSize) {
    LastByte(addr, size).line != addr.line
  }

  /** CACHE_CHECK lets the access through. */
  predicate Resident(lines: CacheLines, addr: Addr, size: AccessSize) {
    Hit(lines, addr) && (Spans(addr, size) ==> Hit(lines, LastByte(addr, size)))
  }

  /** CACHE_CHECK: start a refill of the first missing line, if any. */
  function CacheCheck(c: Cpu, addr: Addr, size: AccessSize): Cpu {
    if !Hit(c.lines, addr) then DtrCache(c, addr)
    else if Spans(addr, size) && !Hit(c.lines, LastByte(addr, size)) then DtrCache(c, LastByte(addr, size))
    else c
  }

  /** Byte k of the four that start at byte b of word j of a line. */
  function BytePast(data: LineData, j: Offset, b: ByteIndex, k: ByteIndex): Byte
    requires 4 * j + b <= 124
  {
    if b + k < 4 then data[j].At(b + k) else data[j + 1].At(b + k - 4)
  }

  /** CACHE_READ of four bytes. */
  function CacheRead(lines: CacheLines, addr: Addr): Word {
    var last := LastByte(addr, 4);
    if last.line != addr.line then
      var lo := lines[addr.line].data[31];
      var hi := lines[last.line].data[0];
      lo.ShiftRight(addr.byte).Or(hi.ShiftLeft(4 - (last.byte + 1)))
    else
      var data := lines[addr.line].data;
      Word(BytePast(data, addr.offset, addr.byte, 0), BytePast(data, addr.offset, addr.byte, 1),
           BytePast(data, addr.offset, addr.byte, 2), BytePast(data, addr.offset, addr.byte, 3))
  }

  /** Byte k of word j of a line after a four-byte store at byte b of word `at`. */
  function Overlay(data: LineData, at: Offset, b: ByteIndex, value: Word, j: Offset, k: ByteIndex): Byte {
    if 4 * at + b <= 4 * j + k < 4 * at + b + 4 then value.At(4 * j + k - (4 * at + b)) else data[j].At(k)
  }

  /** A line's words after a four-byte store at byte b of word `at`. */
  function StoreBytes(data: LineData, at: Offset, b: ByteIndex, value: Word): LineData {
    seq(32, j requires 0 <= j < 32 =>
      Word(Overlay(data, at, b, value, j, 0), Overlay(data, at, b, value, j, 1),
           Overlay(data, at, b, value, j, 2), Overlay(data, at, b, value, j, 3)))
  }

  /** CACHE_WRITE of four bytes inside one line. */
  function CacheWrite(c: Cpu, addr: Addr, value: Word): Cpu
    requires !Spans(addr, 4)
  {
    var line := c.lines[addr.line];
    var data := StoreBytes(line.data, addr.offset, addr.byte, value);
    c.(lines := c.lines[addr.line := line.(data := data, dirty := true)])
  }

  // ---- device executors --------------------------------------------------------------------

  /**
   What the instruction parser or the interrupt entry does in one tick, as far as the cache, the
   bus and the detours can tell.
   */
  datatype Work =
    | Other
    | Access(at: Addr, size: AccessSize)  // CACHE_CHECK of `size` bytes, then a read
    | Store(addr: Addr, value: Word)      // CACHE_CHECK, then a four-byte CACHE_WRITE
    | Delay(ticks: Ticks)                 // SLEEP
    | Wait(timer: Ticks)                  // WAIT
    | Raise(id: nat)                      // a software interrupt or a fault
    | Enter                               // the interrupt entry jumps to its handler

  /** Stores that span two lines are not modelled. */
  predicate ValidWork(w: Work) {
    w.Store? ==> !Spans(w.addr, 4)
  }

  function WorkStep(c: Cpu, w: Work): Cpu
    requires ValidWork(w)
  {
    match w
    case Other => c
    case Access(addr, size) => CacheCheck(c, addr, size)
    case Store(addr, value) => if Resident(c.lines, addr, 4) then CacheWrite(c, addr, value) else CacheCheck(c, addr, 4)
    case Delay(n) => c.(sleep := c.sleep.(delay := true), delay := n)
    case Wait(t) => c.(sleep := c.sleep.(timer := true), delay := t)
    case Raise(id) => DtrIntp(c, id)
    case Enter => c.(dtrIntp := false, sleep := AWAKE)
  }

  function SleepStep(c: Cpu): Cpu {
    if c.sleep.delay then
      var d := if c.delay == 0 then 0xFFFF else c.delay - 1;
      c.(delay := d, sleep := c.sleep.(delay := d != 0))
    else c
  }

  /** One step of the refill of `cacheAddress`. */
  function RefillStep(c: Cpu, mode: FillMode): Cpu {
    var i := c.cacheAddress.line;
    var line := c.Victim();
    if c.cacheStatus < 32 then
      if c.cacheStatus == 0 && (!line.valid || !line.dirty) then c.(cacheStatus := 32)
      else
        DtrMemWrite(c, LineBase(i, line.tag) + c.cacheStatus, line.data[c.cacheStatus])
          .(cacheStatus := c.cacheStatus + 1)
    else if c.cacheStatus < 64 then
      var line' := if c.cacheStatus == 32 then line.(valid := false)
                   else line.(data := line.data[c.cacheStatus - 33 := c.busData]);
      DtrMemRead(c.(lines := c.lines[i := line']), FillBase(mode, c.cacheAddress) + (c.cacheStatus - 32))
        .(cacheStatus := c.cacheStatus + 1)
    else
      var line' := CacheLine(true, false, c.cacheAddress.tag, line.data[31 := c.busData]);
      c.(lines := c.lines[i := line'], dtrCache := false)
  }

  /** Put the scheduled bus access on the board's bus, unless the bus is taken. */
  function MemStep(m: Machine): Machine {
    var c := m.cpu;
    if m.board.bus.Input() then m
    else
      var bus := m.board.bus.(address := c.busAddress, input := c.busData,
                              write := c.busWrite, read := !c.busWrite);
      if c.busWrite then
        m.(cpu := c.(dtrMem := false), board := m.board.(bus := bus))
      else
        var tries := if c.busTries < 0xFF then c.busTries + 1 else c.busTries;
        m.(cpu := c.(busTries := tries, delay := tries % 0x100, sleep := c.sleep.(delay := true, mem := true)),
           board := m.board.(bus := bus))
  }

  function CpuStep(m: Machine, mode: FillMode, w: Work): Machine
    requires ValidWork(w)
  {
    if m.cpu.Sleeping() then m.(cpu := SleepStep(m.cpu))
    else if m.cpu.dtrMem then MemStep(m)
    else if m.cpu.dtrCache then m.(cpu := RefillStep(m.cpu, mode))
    else m.(cpu := WorkStep(m.cpu, w))
  }

  function RamStep(m: Machine): Machine {
    var b := m.ram.bus;
    var idle := b.(read := false, write := false, response := false, intp := false);
    if !b.Active() then m
    else if b.address < |m.ram.data| then
      if b.write then m.(ram := Ram(idle, m.ram.data[b.address := b.input]))
      else if m.board.bus.Output() then m
      else m.(ram := m.ram.(bus := idle),
              board := m.board.(bus := m.board.bus.(response := true, output := m.ram.data[b.address])))
    else if m.board.bus.Output() then m
    else m.(ram := m.ram.(bus := idle),
            board := m.board.(bus := m.board.bus.(intp := true, intpId := INT_MR)))
  }

  /** The board hands its output to the CPU. */
  function BoardOutputStep(m: Machine): Machine {
    var b := m.board.bus;
    var awake := m.cpu.(sleep := m.cpu.sleep.(delay := false, mem := false));
    if !b.Output() then m
    else
      m.(cpu := if b.response then awake.(dtrMem := false, busData := b.output) else DtrIntp(awake, b.intpId),
         board := m.board.(bus := b.(response := false, intp := false)))
  }

  /** The board passes its input, if any, to the RAM. */
  function BoardForwardStep(m: Machine): Machine {
    var b := m.board.bus;
    if !b.Input() then m
    else
      m.(ram := m.ram.(bus := m.ram.bus.(read := b.read, write := b.write, address := b.address, input := b.input)),
         board := m.board.(bus := b.(read := false, write := false)))
  }

  /** An absent RAM raises an interrupt, and a busy one rejects the request; else the board serves both sides. */
  function BoardStep(m: Machine): Machine {
    var b := m.board.bus;
    var taken := b.(read := false, write := false);
    if b.Input() && !m.board.hasRam then
      if b.Output() then m else m.(board := m.board.(bus := taken.(intp := true, intpId := INT_IO)))
    else if b.Input() && m.ram.bus.Input() then
      m.(cpu := m.cpu.(sleep := m.cpu.sleep.(mem := false)), board := m.board.(bus := taken))
    else BoardOutputStep(BoardForwardStep(m))
  }

  /** What the CPU's timers do in one tick. */
  datatype Timer = Silent | Wakeup | Interrupt(id: nat)

  function TimerStep(m: Machine, t: Timer): Machine {
    match t
    case Silent => m
    case Wakeup => m.(cpu := m.cpu.(sleep := m.cpu.sleep.(timer := false)))
    case Interrupt(id) => m.(cpu := DtrIntp(m.cpu, id))
  }

  // ---- the schedule ------------------------------------------------------------------------

  datatype Event = Event(timer: Timer, work: Work)

  type Events = es: seq<Event> | forall i | 0 <= i < |es| :: ValidWork(es[i].work)

  /** One tick in lockstep, children before their parent: timers, CPU, RAM, board. */
  function Tick(m: Machine, mode: FillMode, e: Event): Machine
    requires ValidWork(e.work)
  {
    BoardStep(RamStep(CpuStep(TimerStep(m, e.timer), mode, e.work)))
  }

  function Run(m: Machine, mode: FillMode, es: Events): Machine
    decreases |es|
  {
    if es == [] then m else Run(Tick(m, mode, es[0]), mode, es[1..])
  }
}
