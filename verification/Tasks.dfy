/**
 Task switching (src/kyanite_legacy.c:572-585): one set of live registers laid over sixteen slots
 behaves as sixteen independent contexts.
 */
module Tasks {
  type Slot = n: nat | n < 16
  type Registers = s: seq<bv32> | |s| == 16 witness seq(16, _ => 0)
  type Ip = n: nat | n < 0x1_0000

  /** What a task slot saves. */
  datatype Context = Context(gpr: Registers, status: bv32, ip: Ip)

  type Slots = s: seq<Context> | |s| == 16 witness seq(16, _ => Context(seq(16, _ => 0), 0, 0))

  function Past(ip: Ip, size: nat): Ip { (ip + size) % 0x1_0000 }

  /** What a switch makes of a slot: it steps past itself after loading it. */
  function Loaded(c: Context): Context { c.(ip := Past(c.ip, 2)) }

  // ---- sixteen contexts --------------------------------------------------------------------

  /** The reading of a core as sixteen tasks, each with the place where it goes on. */
  datatype Tasks = Tasks(contexts: Slots, active: Slot)

  /** An instruction of the active task: anything but a task instruction, or a switch. */
  datatype Op = Exec(next: Context) | Switch(value: nat)

  function TaskStep(t: Tasks, op: Op): Tasks {
    match op
    case Exec(next) => t.(contexts := t.contexts[t.active := next])
    case Switch(value) =>
      Tasks(t.contexts[t.active := Loaded(t.contexts[t.active])], value % 16)
  }

  function TaskRun(t: Tasks, ops: seq<Op>): Tasks
    decreases |ops|
  {
    if ops == [] then t else TaskRun(TaskStep(t, ops[0]), ops[1..])
  }

  // ---- the core ----------------------------------------------------------------------------

  class Core {
    var gpr: Registers
    var status: bv32
    var ip: Ip
    const slots: array<Context>
    var active: Slot

    /** Task 0 starts with the given registers; the other slots are as stored, though never saved. */
    constructor (start: Context, stored: Slots)
      ensures Valid() && fresh(slots)
      ensures View().active == 0 && View().contexts[0] == start
      ensures forall k | 0 < k < 16 :: View().contexts[k] == Loaded(stored[k])
    {
      slots := new Context[16](k requires 0 <= k < 16 => stored[k]);
      gpr, status, ip, active := start.gpr, start.status, start.ip, 0;
    }

    predicate Valid() { slots.Length == 16 }

    /** The live context stands for the active task; a saved one goes on after its switch. */
    ghost function View(): Tasks
      requires Valid()
      reads this, slots
    {
      Tasks(seq(16, k requires 0 <= k < 16 reads this, slots =>
                if k == active then Context(gpr, status, ip) else Loaded(slots[k])),
            active)
    }

    /** Any instruction that leaves the task slots alone. */
    method Execute(next: Context)
      requires Valid()
      modifies this
      ensures View() == TaskStep(old(View()), Exec(next))
    {
      gpr, status, ip := next.gpr, next.status, next.ip;
      assert View().contexts == old(View()).contexts[active := next];
    }

    /** TSW: save the live registers, load the next slot's, and step past the instruction. */
    method Switch(value: nat)
      requires Valid()
      modifies this, slots
      ensures View() == TaskStep(old(View()), Op.Switch(value))
    {
      var current := active;
      active := value % 16;
      slots[current] := Context(gpr, status, ip);
      ip := slots[active].ip;
      status := slots[active].status;
      gpr := slots[active].gpr;
      ip := Past(ip, 2);
      assert View().contexts == TaskStep(old(View()), Op.Switch(value)).contexts;
    }

    /** TMK: rename the live registers. It is a plain instruction just when nothing is renamed. */
    method Make(value: nat)
      requires Valid()
      modifies this
      ensures active == value % 16
      ensures View().contexts[active] == old(Context(gpr, status, Past(ip, 2)))
      ensures value % 16 != old(active) ==>
                View().contexts[old(active)] == old(Loaded(slots[active]))
      ensures forall k | 0 <= k < 16 && k != old(active) && k != active ::
                View().contexts[k] == old(View()).contexts[k]
      ensures value % 16 == old(active) <==>
              View() == TaskStep(old(View()), Exec(old(Context(gpr, status, Past(ip, 2)))))
    {
      ghost var next := Context(gpr, status, Past(ip, 2));
      active := value % 16;
      ip := Past(ip, 2);
      assert active == old(active) ==> View().contexts == old(View()).contexts[active := next];
    }

    /** Any run of instructions and switches is a run of sixteen tasks. */
    method Run(ops: seq<Op>)
      requires Valid()
      modifies this, slots
      ensures View() == TaskRun(old(View()), ops)
    {
      var i := 0;
      while i < |ops|
        invariant 0 <= i <= |ops|
        invariant TaskRun(View(), ops[i..]) == TaskRun(old(View()), ops)
      {
        match ops[i] {
          case Exec(next) => Execute(next);
          case Switch(value) => Switch(value);
        }
        i := i + 1;
      }
    }
  }

  // ---- laws --------------------------------------------------------------------------------

  /** No switch of the run selects task k. */
  predicate Avoids(ops: seq<Op>, k: Slot) {
    forall i | 0 <= i < |ops| && ops[i].Switch? :: ops[i].value % 16 != k
  }

  /** A task that is suspended and never selected is untouched by whatever the others do. */
  lemma {:induction false} SuspendedUntouched(t: Tasks, ops: seq<Op>, k: Slot)
    requires t.active != k && Avoids(ops, k)
    ensures TaskRun(t, ops).active != k
    ensures TaskRun(t, ops).contexts[k] == t.contexts[k]
    decreases |ops|
  {
    if ops != [] {
      SuspendedUntouched(TaskStep(t, ops[0]), ops[1..], k);
    }
  }

  /**
   A task that switches away and is later switched back in finds its registers and its status as
   it left them, and goes on right after its own switch.
   */
  lemma SwitchBack(t: Tasks, away: nat, ops: seq<Op>, back: nat)
    requires away % 16 != t.active && Avoids(ops, t.active) && back % 16 == t.active
    ensures var me := t.contexts[t.active];
            var t' := TaskStep(TaskRun(TaskStep(t, Switch(away)), ops), Switch(back));
            t'.active == t.active && t'.contexts[t.active] == Context(me.gpr, me.status, (me.ip + 2) % 0x1_0000)
  {
    SuspendedUntouched(TaskStep(t, Switch(away)), ops, t.active);
  }

  /** A task that was never saved starts, whenever it is first selected, not at its stored address but 2 past it. */
  lemma FirstEntry(t: Tasks, stored: Context, ops: seq<Op>, k: Slot)
    requires t.active != k && t.contexts[k] == Loaded(stored) && Avoids(ops, k)
    ensures var t' := TaskStep(TaskRun(t, ops), Switch(k));
            && t'.active == k && t'.contexts[k] == Context(stored.gpr, stored.status, (stored.ip + 2) % 0x1_0000)
            && t'.contexts[k].ip != stored.ip
  {
    SuspendedUntouched(t, ops, k);
  }

  /** Switching to oneself only steps past the instruction. */
  lemma SwitchToSelf(t: Tasks)
    ensures TaskStep(t, Switch(t.active)) ==
            TaskStep(t, Exec(t.contexts[t.active].(ip := (t.contexts[t.active].ip + 2) % 0x1_0000)))
  {
  }
}
