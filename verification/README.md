# Amalgam in Dafny

A model of the two halves of Amalgam — the emulator of the legacy Kyanite machine and the assembler
that feeds it — with proofs of the properties that hold each half together.

**The legacy machine.** The CPU, the board and the RAM share nothing but status bits and bus registers. A cache
miss suspends the CPU in a "detour" of up to 65 positions: 32 dirty words are written back, the line is
invalidated, 32 words are read, the line is validated; each word crosses the bus while the devices take turns
and while interrupts may cut the refill off at any point. `Words.dfy` and `Machine.dfy` give the machine as
values with one step function per executor. `Devices.dfy` has the executors as objects that change registers in
place, each proved equal to its step. `Protocol.dfy` shows what is on the bus in every reachable state.
`Memory.dfy` shows exactly when cache, bus and RAM together are flat memory. `Refill.dfy` counts ticks and tells
what memory and the line hold after a refill. `Waiting.dfy` covers delays, waits, rejected requests and
interrupts, `Tasks.dfy` the task switch.

**The assembler.** `Expr.dfy` is the expression engine, a shunting yard that folds what it knows and renders the
rest back to text; `Yard.dfy` shows which trees it reads and in which order it applies their operators,
`Precedence.dfy` which of two operators that is, `Texts.dfy` what single characters, symbols and wrong texts
are, and `Unique.dfy` that a text belongs to one tree only. `Residual.dfy` says exactly what the engine sees,
folds and leaves for later, and that what it leaves still means the same; `Departures.dfy` tells exactly when
its slips matter; `Numerals.dfy` covers reading and printing numbers, `Shifts.dfy` and `BitOps.dfy` shifts and
bitwise operators. `Substitution.dfy`, `Stream.dfy`, `Driver.dfy` and `Expansion.dfy` cover macros, repeats and
includes: a stack of suspended files with headers shifted off and pushed back behaves as one stream of lines.
`Layout.dfy` and `Emitters.dfy` cover sections, their addresses and the slots of deferred expressions,
`Encoding.dfy` the bytes that operands become, `Symbols.dfy` what statements do to symbols; `Link.dfy` and
`Placement.dfy` cover the placement of sections. `HashMap.dfy` and `LinkedList.dfy` cover the two data
structures underneath; `Division.dfy` and `Wrappers.dfy` are helpers.

`dafny verify dfyconfig.toml` checks the whole project.

## Where the program departs from its intent

The model follows the code. Where the code does not do what it is evidently for, the model keeps the code, and
lemmas say exactly when that matters and what comes of it.

- The fill address (`src/kyanite_legacy.c:478`) adds the refill position, which starts at 32, to the address
  that missed, not to the first word of its line. The fill base is a parameter: `AsWritten` is the code,
  `OwnLine` the line's own words. The protocol, the tick counts and the two-refill bound hold for both. A step of
  a refill keeps what the CPU sees exactly if it drops only a line that memory agrees with and makes valid only
  words that memory holds (`Memory.StepImageIff`), so a run is flat memory throughout exactly if every refill in it
  does (`Memory.FlatFromAnyState`), and from a state whose cache agrees with memory exactly if every completed fill
  has read words equal to those of its line (`Memory.FlatIff`), as fills from `OwnLine` always do
  (`Memory.OwnLineFillsRight`). For one miss the condition is on the memory that the missing machine will have once
  its victim is written back (`Refill.AsWrittenLoad`; `Refill.WrongWord` is an input where it fails). A fill that
  reaches past the end of memory is given up for an interrupt (`Refill.RefillEnds`).
- A write that finds the device busy is dropped (`src/kyanite_legacy.c:376-381`, 460-462). In lockstep the
  board always finds the RAM idle (`Protocol.TickPhases`); otherwise the loss is harmless exactly when the
  write would have changed nothing (`Protocol.RejectedWrite`). If the RAM misses four ticks of a
  write-back, its second word is lost in that sense (`Protocol.SlowRam`; `Refill.LostWord` is such a loss).
- A closed bracket does not count as a value (`src/cmpl_internal.c:194`), so an operator after it is read as a
  sign: such a text is never read without an error, while all others are unless something known is divided by 0,
  where as written the left operand divides the right (`Departures.GroupsAsWritten`). "(1)+2" is an example
  (`Departures.GroupPlusTwo`); "5/0" is folded to 0, and "0/5" is an error (`Departures.DividedByTheLeft`).
- `_parse_op` puts the right operand first (`src/cmpl_internal.c:103`, 141-162). What the code makes of an
  expression is what the engine put right makes of its mirror, the same tree with the operands of every operator
  exchanged (`Departures.MirrorRead`); so it is right exactly when the mirror's value is the same and the
  mirror's computed operands are small (`Departures.FoldsMirror`). `Departures.SwappedOperands` gives, operator
  by operator, the operands for which the exchange makes no difference, and `Departures.ExchangeableAsWritten`
  extends it to whole expressions. "5-3" is folded to -2 (`Departures.FiveMinusThree`). An operator between two
  words that is left for later is exchanged twice, which is right (`Departures.ExchangedTwice`); a larger
  expression comes out right only if what is left has no operator after a bracket (`Departures.AsWrittenLater`).
- A folded operand is printed with a sign (`src/cmpl_internal.c:86`, 128, 165) and read back exactly below 2^63,
  or if the sign and digits happen to be the name of a symbol with just that value (`Departures.RereadIff`,
  `Departures.TooLarge`). So an expression of known words is folded exactly if its computed operands are below
  2^63 (`Residual.KnownFolds`), and the same holds of what was left for later (`Residual.PartialEvaluation`).
- A bare symbol, with or without brackets and plus signs, is never looked up: its text is handed to `strtoll`
  (`src/cmpl_internal.c:229-247`). It is never left for later either, and its constant is right exactly for
  numerals and for symbols that stand for 0 in the end (`Residual.BareWord`, `Departures.SevenIsZero`).
- `^` lies in the range of the characters of names (`src/cmpl_internal.c:7`), so it never is an operator
  (`Departures.CaretInWord`); "5^3" is read as 5 (`Departures.FiveCaretThree`).
- A blank at the end of a text makes the cursor run past it (`src/cmpl_internal.c:175-219`, outcome `Overrun`):
  after the text of a well-formed tree exactly if a value is held to have come last, that is unless the tree ends
  in a bracket that as written is forgotten (`Departures.OverrunIff`); in any text whatever only if the last
  character is a blank (`Departures.OverrunAtBlank`). "5 " is an example (`Departures.FiveBlank`), which `.irpc`
  makes of "5\s" when a character of its operand is a blank (`src/cmpl_control.c:188-193`).
- A macro call that lacks an argument leaves the stored macro without its operands
  (`src/cmpl_control.c:161-181`); the definition is kept exactly when no argument is missing
  (`Expansion.DefinitionKept`, `Expansion.MissingArgument`). A parameter with a default never takes an argument
  (`Stream.Bind`).
- A closer inside a nested body is any word that begins with `.end` and the letter of its kind; the outermost
  must be the exact word (`src/compile.c:278-292`, `Expansion.CloserIff`). ".endmacro" is of the first sort only
  (`Expansion.EndMacroWord`).
- `_parsei_1reg_1imm` emits three bytes and counts four (`src/cmpl_data.c:314-316`), which moves every later
  label in its section by one (`Layout.AddressIsBytes`, `Layout.LabelOffset`, `Layout.LabelAfterShift`), and the
  noted place of every later deferred expression likewise: its zeros are that much further to the front
  (`Layout.SlotsReserved`).
- `TMK` renames the live registers without saving them (`src/kyanite_legacy.c:585`); it is harmless exactly
  when it names the active task (`Tasks.Core.Make`). A slot that was never saved is entered, whatever ran before,
  not at its stored address but 2 past it, since `TSW` steps past itself after loading it (`Tasks.FirstEntry`).

## Model

| member | source | states |
|---|---|---|
| Words.AdvanceIsAddition | aasm/kyanite/legacy.h:81-88 | carrying through the byte, word, line and tag fields of an address is 16-bit addition, wrap-around included |
| Words.RawRoundTrip | aasm/kyanite/legacy.h:81-88 | an address is read back from the 2, 5, 3 and 6 bits of its raw value |
| Words.RawOfFields | aasm/kyanite/legacy.h:81-88 | every raw value is that of its fields |
| Words.BusWord | src/kyanite_legacy.c:470-471 | the bus word of an address is its raw value without the two lowest bits, and a line's first word the raw one of its first byte |
| Devices.CpuDevice.DtrIntp | src/kyanite_legacy.c:312-317 | an interrupt drops every other detour and all sleep, and notes its number |
| Devices.CpuDevice.DtrMemRead | src/kyanite_legacy.c:318-322 | schedules a read; nothing else changes |
| Devices.CpuDevice.DtrMemWrite | src/kyanite_legacy.c:323-328 | schedules a write of a word; nothing else changes |
| Devices.CpuDevice.DtrCache | src/kyanite_legacy.c:329-333 | starts a refill at position 0 |
| Devices.CpuDevice.CacheCheck | src/kyanite_legacy.c:270-284 | lets an access through if and only if all its lines are resident, and otherwise starts the refill of the first that misses |
| Devices.CpuDevice.CacheWrite | src/kyanite_legacy.c:305-309 | a four-byte store inside one line: the whole new state |
| Devices.CpuDevice.Sleep | src/kyanite_legacy.c:445-450 | the delay counts down, wrapping at 0, and wakes at 0 |
| Devices.CpuDevice.Requested | src/kyanite_legacy.c:455-462 | after a request a read puts the CPU to sleep, a write is done with |
| Devices.CpuDevice.WriteBackWord | src/kyanite_legacy.c:465-472 | a clean victim is skipped, else the next word is scheduled for its own address |
| Devices.CpuDevice.FillWord | src/kyanite_legacy.c:473-479 | invalidates first, then stores the word that arrived and asks for the next |
| Devices.CpuDevice.FinishFill | src/kyanite_legacy.c:480-486 | the last word makes the line valid, clean and the missed one |
| Devices.CpuDevice.Refill | src/kyanite_legacy.c:463-486 | one position of a refill, as the step function says |
| Devices.CpuDevice.DoWork | src/kyanite_legacy.c:487-518 | what the parser or the interrupt entry does to cache, sleep and detours |
| Devices.BusPort.Request | src/kyanite_legacy.c:27-30 | an idle port takes a request |
| Devices.System.CpuMem | src/kyanite_legacy.c:452-462 | a scheduled access goes to the bus, or waits while it is taken |
| Devices.System.CpuExecutor | src/kyanite_legacy.c:444-519 | one call of the executor is one step: sleep before memory before refill before work |
| Devices.System.RamExecutor | src/kyanite_legacy.c:432-442 | writes, answers, or raises an interrupt out of range; keeps a request it cannot answer |
| Devices.System.BoardExecutor | src/kyanite_legacy.c:364-396 | absent device, busy device, forwarding and answer, as the step function says |
| Devices.System.TimerExecutor | src/kyanite_legacy.c:415-431 | what timers do to the CPU |
| Devices.System.Execute | src/aasm.c:3-16 | a tick in place is timers, CPU, RAM, board |
| Devices.System.ExecuteAll | src/aasm.c:14-16 | a run of ticks in place is the run of the step functions |
| Devices.System.ExecuteAsMemory | src/kyanite_legacy.c:364-519 | a run in place whose completed fills have read words equal to those of their lines, as from the line's own base they always do, is flat memory to the CPU, byte by byte, under the stores it executed |
| Protocol.TickPhases | src/kyanite_legacy.c:364-486 | inside every lockstep tick at most one read is outstanding, the board finds the RAM idle so no write is rejected, and an answer is the word that was asked for, never a late one |
| Protocol.RunSettled | src/kyanite_legacy.c:312-486 | the protocol holds in every state a lockstep run reaches, with interrupts anywhere, for either fill address |
| Protocol.ChildOrder | src/aasm.c:5-7 | it makes no difference which child of the board runs first |
| Protocol.RequestAddress | src/kyanite_legacy.c:463-479 | which raw address, shifted, each position of a refill asks for: a victim's word its own, a filled word the missed one plus the position, as written |
| Protocol.WriteBackOnCourse | src/kyanite_legacy.c:465-472 | a write-back position keeps everything accepted so far equal to the victim |
| Protocol.AnswerOnCourse | src/kyanite_legacy.c:385-391 | the answer that arrives is the word the fill waits for |
| Protocol.CompletedFill | src/kyanite_legacy.c:473-486 | word i of a completed fill is memory's word at base + i, for any base |
| Protocol.RejectedWrite | src/kyanite_legacy.c:376-381 | a rejected write is harmless if and only if it would have changed nothing |
| Protocol.SlowRam | src/kyanite_legacy.c:376-381 | if the RAM misses four ticks, the second of two words written back is lost for good if and only if memory did not hold it |
| Memory.WriteBackImage | src/kyanite_legacy.c:470-472 | writing a dirty word back leaves the image unchanged at every word, and agreement of cache and memory too |
| Memory.DroppedWord | src/kyanite_legacy.c:474-475 | word by word: dropping a line keeps the image if and only if memory agrees with it |
| Memory.InvalidateImage | src/kyanite_legacy.c:474-475 | dropping a line that memory agrees with keeps the whole image |
| Memory.ValidateImage | src/kyanite_legacy.c:480-485 | so does making a line valid with memory's words |
| Memory.CompletedWord | src/kyanite_legacy.c:478-485 | word by word, for either fill base: a completed fill keeps the image if and only if the word it read equals the line's own |
| Memory.RefillStepImage | src/kyanite_legacy.c:463-486 | a position of a refill that drops and makes valid only what memory agrees with leaves the image unchanged, and cache and memory in agreement if they were |
| Memory.StepImageIff | src/kyanite_legacy.c:463-486 | and only such a position does |
| Memory.CoherentDrop | src/kyanite_legacy.c:465-475 | where clean lines agree with memory, any victim does by the time it is dropped: a dirty one has been written back whole |
| Memory.ReadsImage | src/kyanite_legacy.c:285-295 | a resident four-byte read at any alignment, in one line or two, is the little-endian read of the image, whatever the lines have been filled with |
| Memory.StoreImage | src/kyanite_legacy.c:305-309 | a four-byte store inside a line changes exactly its four bytes of the image, and keeps cache and memory in agreement if they were |
| Memory.ByteAtRaw | src/kyanite_legacy.c:285-309 | the image at raw address n is byte n % 4 of word n / 4 |
| Memory.TickIff | src/kyanite_legacy.c:364-519 | from any state, a tick changes the image only by the store executed in it if and only if a refill position in it is right |
| Memory.FlatFromAnyState | src/kyanite_legacy.c:312-519 | over any lockstep run, with interrupts at any point of any refill and for either fill base, the image is flat memory throughout if and only if every refill drops and makes valid only what memory agrees with |
| Memory.FlatIff | src/kyanite_legacy.c:312-519 | from a state whose cache agrees with memory that is so if and only if every completed fill has read words equal to those of its line |
| Memory.OwnLineFillsRight | src/kyanite_legacy.c:478 | fills that start at the line's own first word always do |
| Memory.RunIsFlatMemory | src/kyanite_legacy.c:312-519 | then the image at the end is flat memory under the executed stores: no dirty word is lost |
| Memory.ConsistentIsFlatMemory | src/kyanite_legacy.c:312-519 | so it is, without any condition for the line's own words, and cache and memory still agree |
| Memory.LoadAfterRun | src/kyanite_legacy.c:285-295 | a load after such a run gives what flat memory would |
| Memory.LoadIsImage | src/kyanite_legacy.c:285-295 | a load after any run at all gives the bytes of the image |
| Refill.RefillRun | src/kyanite_legacy.c:445-486 | without interrupts a refill ends after an exact number of ticks, with the line resident, memory's words in it and the other lines untouched |
| Refill.RefillEnds | src/kyanite_legacy.c:439-486 | a calm refill always ends in that time, and its line is there if and only if all 32 words from the fill base on are in memory; else it has been given up for an interrupt |
| Refill.EventuallyTick | src/kyanite_legacy.c:364-486 | for either base, no calm tick of a refill changes what will lie below the cache in the end: memory with the dirty victim's words laid over it |
| Refill.FillRun | src/kyanite_legacy.c:463-486 | for either base and any victim, after the refill memory is that, and the line holds 32 consecutive words of it |
| Refill.LoadAfterMiss | src/kyanite_legacy.c:463-486 | after a miss word j of the line is, by raw addresses, word raw / 4 + 32 + j of memory as written, and word j of the aligned 128 bytes for the line's own base |
| Refill.BytesAfterMiss | src/kyanite_legacy.c:285-295 | with the line's own base a four-byte load after a miss is, byte for byte, memory at the raw addresses from the missed one on |
| Refill.VictimPlaces | src/kyanite_legacy.c:470-471 | the words of a dirty victim end up at its own raw addresses, and no other word of memory changes |
| Refill.AsWrittenLoad | src/kyanite_legacy.c:478 | after a miss as written, with any victim, a word of the line is right if and only if, in memory with the victim laid over it before the miss, the word 32 past the miss equals it |
| Refill.WrongWord | src/kyanite_legacy.c:478 | a machine whose line 0 ends up with word 32 in the place of word 0 |
| Refill.LostWord | src/kyanite_legacy.c:376-381 | a write-back whose word 1 is lost because the RAM misses four ticks |
| Refill.MissTicks | src/kyanite_legacy.c:463-486 | a miss takes 161 ticks with a dirty victim and 98 with a clean one |
| Refill.AdjacentLines | src/kyanite_legacy.c:276-278 | two lines of one access never share an index, even across the wrap of the address space |
| Refill.OneRefill | src/kyanite_legacy.c:270-284 | for either base, a retried access that misses a line whose fill reads words in memory has it within 162 ticks, the other lines kept |
| Refill.TwoRefills | src/kyanite_legacy.c:270-284 | for either base, repeating an access makes it resident within two refills |
| Waiting.SleepsFor | src/kyanite_legacy.c:445-450 | the delay bit is set for exactly the count of steps, and for 65536 if the count is 0 |
| Waiting.DelayRun | src/kyanite_legacy.c:445-450 | a delay of n keeps the CPU asleep for exactly n further ticks |
| Waiting.WaitRun | src/kyanite_legacy.c:423-426 | a wait lasts any number of ticks until its timer wakes the CPU |
| Waiting.WakesWaits | src/kyanite_legacy.c:423-426 | a timer ends no other sleep |
| Waiting.RejectedRead | src/kyanite_legacy.c:376-381 | the k-th read that is rejected is tried again after exactly k ticks, at most 255 |
| Waiting.AbsentRam | src/kyanite_legacy.c:370-374 | a read without a RAM ends after two ticks with interrupt 3 |
| Waiting.OutOfRange | src/kyanite_legacy.c:434-440 | a read outside of memory ends with interrupt 2 |
| Waiting.InterruptNumber | src/kyanite_legacy.c:312-317 | timer interrupts and raised ones keep their numbers, and end everything else |
| Waiting.Entered | src/kyanite_legacy.c:503-511 | entering the handler leaves the CPU free and the cache as it was |
| Tasks.Core.Switch | src/kyanite_legacy.c:572-584 | saving and loading in place is the switch of sixteen independent contexts |
| Tasks.Core.Make | src/kyanite_legacy.c:585 | renaming acts as a plain instruction if and only if it names the active task; else it moves the live registers |
| Tasks.Core.Run | src/kyanite_legacy.c:572-584 | any run without a rename is a run of sixteen contexts |
| Tasks.Core.constructor | aasm/kyanite/legacy.h:94-118 | a core with any stored slots is sixteen contexts, each but the active one 2 past its stored address |
| Tasks.FirstEntry | src/kyanite_legacy.c:572-584 | a slot that was never saved is entered 2 past its stored address after any run |
| Tasks.SuspendedUntouched | src/kyanite_legacy.c:572-584 | a suspended context that is not selected is untouched over any run |
| Tasks.SwitchBack | src/kyanite_legacy.c:572-584 | a task switched back in has its registers and status and goes on right after its own switch |
| Tasks.SwitchToSelf | src/kyanite_legacy.c:572-584 | a task that switches to itself only steps past the instruction |
| HashMap.BucketIsRemainder | src/util.c:123 | the bucket is the key modulo the capacity |
| HashMap.HashMap.constructor | src/util.c:112-119 | an empty table stands for the empty map |
| HashMap.HashMap.Get | src/util.c:121-127 | finds the node of a key if and only if the map has it, with the map's value |
| HashMap.HashMap.Put | src/util.c:129-147 | the map gains or replaces one entry, the old value is returned, the size stays within twice the capacity, which becomes four thirds of the size exactly when a new key exceeds that |
| HashMap.HashMap.Rehash | src/util.c:162-180 | relinking into a strictly larger array changes no lookup and copies no node |
| HashMap.MoveAll | src/util.c:166-176 | every node is moved exactly once, into the bucket of its key |
| HashMap.MoveChain | src/util.c:169-175 | one chain is moved node by node while its links are overwritten |
| HashMap.Link | src/util.c:139-140 | a node in front of its chain keeps every other chain |
| HashMap.PutAll | src/util.c:129-147 | any run of puts gives the mathematical map |
| LinkedList.List.Append | src/util.c:241-247 | appends through the pointer to the last link, on empty and other lists |
| LinkedList.List.Prepend | src/util.c:249-256 | prepends; the pointer to the last link moves only on an empty list |
| LinkedList.List.Shift | src/util.c:274-283 | removes the first value, and keeps the pointer right when the list becomes empty |
| LinkedList.List.Pop | src/util.c:258-272 | removes the last value and finds the link before it |
| LinkedList.List.ToArray | src/util.c:308-322 | the values in order |
| Numerals.ShowRoundTrip | src/cmpl_internal.c:128 | what `%ld` prints, `strtoll` reads back as the same 64 bits; it starts with a digit if and only if below 2^63 |
| Numerals.NumeralMeaning | src/cmpl_internal.c:86-88 | a numeral in base 8, 10 or 16, with either sign and followed by what is no digit, is read as the number nearest to it in 64 bits |
| Expr.WrapAround | src/cmpl_internal.c:123-162 | sums, differences, negation and complement are taken modulo 2^64, and `!` tells whether a value is 0 |
| Expr.ProductMeaning | src/cmpl_internal.c:149 | products are taken modulo 2^64 |
| Expr.DivisionMeaning | src/cmpl_internal.c:150-155 | quotient and remainder make up the dividend |
| Expr.ShiftMeaning | src/cmpl_internal.c:156-157 | a shift by less than 64 multiplies by a power of two modulo 2^64, or divides by it |
| Expr.BitMeaning | src/cmpl_internal.c:158-160 | each bit of a result is and, or and exclusive or of the bits of the operands |
| Expr.ParseExpr | src/cmpl_internal.c:172-232 | the cursor loops over two stacks compute the recursive reading of the text, every error and the overrun included |
| Expr.Operator | src/cmpl_internal.c:184-218 | the branches at a bracket, a sign or an operator |
| Expr.UnwindStack | src/cmpl_internal.c:211-214 | operators of at least the precedence are applied, down to a bracket |
| Expr.CloseGroup | src/cmpl_internal.c:187-194 | operators are applied back to the bracket, or its absence is an error |
| Yard.Read | src/cmpl_internal.c:172-220 | reading the text of a tree leaves exactly its pending operators over an untouched stack |
| Yard.PendingCompletes | src/cmpl_internal.c:211-225 | applying what is pending completes the post-order of the tree |
| Yard.TreeOrder | src/cmpl_internal.c:172-232 | every text of a well-formed tree is evaluated in the order of that left-associative four-level tree |
| Precedence.PairOrder | src/cmpl_internal.c:70-83 | of two binary operators on words the second is applied first if and only if it binds tighter: products before shifts before masks before sums |
| Precedence.SignOrder | src/cmpl_internal.c:195-209 | a sign is applied before any binary operator, on either side; `-` negates and `+` does nothing |
| Precedence.DoubledShift | src/cmpl_internal.c:215 | a doubled shift reads like a single one |
| Precedence.TwoPlusThreeTimesFour | src/cmpl_internal.c:211-214 | "2+3*4" is folded to 14 |
| Texts.WordCharacter | src/cmpl_internal.c:6-8 | the characters that are operands by themselves |
| Texts.SkippedIff | src/cmpl_internal.c:3-5 | the characters that are without effect before a numeral |
| Texts.BlankSkipped | src/cmpl_internal.c:176 | blanks before something are skipped in any state |
| Texts.Here | src/cmpl_internal.c:85 | "." is the location counter |
| Texts.SymbolMeaning | src/cmpl_internal.c:88-98 | a symbol stands for its value if and only if it is absolute, else the text is left for later, or refused at size 0 |
| Texts.NoOperand | src/cmpl_internal.c:206-207 | an empty text and one that begins with a binary operator are errors |
| Texts.NoRightOperand | src/cmpl_internal.c:134 | an operator without its right operand is reported twice |
| Texts.TwoWords | src/cmpl_internal.c:227 | two operands without an operator are an error |
| Texts.Unclosed | src/cmpl_internal.c:223 | so is an opening bracket too many, around any expression |
| Texts.Unopened | src/cmpl_internal.c:190 | so is a closing bracket too many, after any expression and before any text |
| Unique.OneTree | src/cmpl_internal.c:70-83 | the operands and operators of a well-formed tree in a row determine the tree |
| Unique.PrintInjective | src/cmpl_internal.c:172-232 | no two well-formed trees have the same text |
| Residual.OneResult | src/cmpl_internal.c:100-171 | a tree adds exactly one text to the value stack, never underflowing, unless a divisor is zero, which is reported |
| Residual.Accepted | src/cmpl_internal.c:172-232 | every well-formed text ends with exactly one result and no error, unless a divisor is zero |
| Residual.TreeFaithful | src/cmpl_internal.c:84-171 | the text left for a tree reads as the tree's value where computed operands from 2^63 on are unknown; a zero divisor is met if and only if that reading divides something known by 0 |
| Residual.ResiduePrints | src/cmpl_internal.c:100-171 | that text is the text of a well-formed tree |
| Residual.Folding | src/cmpl_internal.c:233-250 | the exact outcome for an expression with an operator: its value if every operand is seen, else an error at size 0, else its residue |
| Residual.SeenMeaning | src/cmpl_internal.c:120-168 | the engine sees the value modulo 2^64 if and only if all computed operands are below 2^63 |
| Residual.KnownFolds | src/cmpl_internal.c:120-168 | with all words known, an expression is folded to its value modulo 2^64 if and only if all computed operands are below 2^63, and to no constant otherwise |
| Residual.LaterReading | src/cmpl_internal.c:233-250 | for any expression with an operator, zero divisors, large values and unknown words included: what is left is read later as the expression itself would be |
| Residual.BareWord | src/cmpl_internal.c:229-247 | a bare word, known or not, bracketed or signed, is never left for later, and its constant has the later value if and only if it is a numeral or that value is 0 |
| Residual.PartialEvaluation | src/cmpl_internal.c:233-250 | what is left of an expression, parsed again once its symbols are absolute, is the value of the original if and only if all computed operands are below 2^63, and no constant otherwise; what is folded at once is that value if and only if it is not such a bare word |
| Shifts.LeftExchange | src/cmpl_internal.c:156 | of two different counts below 64, only 1 and 2 may be exchanged under a left shift |
| Shifts.RightExchange | src/cmpl_internal.c:157 | under a right shift two counts x < y below 64 may be exchanged if and only if y < 2^x |
| Departures.SwappedOperands | src/cmpl_internal.c:141-162 | the code is right if and only if the operands are exchangeable, in closed form per operator |
| Departures.ExchangeIff | src/cmpl_internal.c:149-162 | the values on which each operator commutes |
| Departures.MirrorRead | src/cmpl_internal.c:103-162 | the code reads a text as the engine put right reads the text with the operands of every operator exchanged |
| Departures.FoldsMirror | src/cmpl_internal.c:103-162 | the code folds to a number if and only if that is the mirror's value and the mirror's computed operands are small; so it is right if and only if moreover the two values are the same |
| Departures.ExchangedTwice | src/cmpl_internal.c:133-147 | an operator between two words that is left for later is right when it is read again |
| Departures.AsWrittenLater | src/cmpl_internal.c:133-147 | what the code leaves of any expression, and exactly when that is read again as a number and as which |
| Departures.ExchangeableAsWritten | src/cmpl_internal.c:100-171 | with exchangeable operands at every operator, the code folds the whole expression to its meaning if and only if its computed operands are small |
| Departures.CommutingAsWritten | src/cmpl_internal.c:100-171 | in particular with commuting operators only |
| Departures.LoopBalance | src/cmpl_internal.c:227 | without errors one result is left only if the words outnumber the applied operators by one |
| Departures.GroupsAsWritten | src/cmpl_internal.c:194 | as written a text is read without error if and only if no operator follows a group and nothing known is divided, by its left operand, by 0 |
| Departures.DividedByTheLeft | src/cmpl_internal.c:150-152 | "5/0" is folded to 0, and "0/5" is an error |
| Departures.OverrunIff | src/cmpl_internal.c:175-219 | the text of a tree followed by blanks is read past its end if and only if there is a blank and the tree does not end in a bracket that is forgotten |
| Departures.OverrunAtBlank | src/cmpl_internal.c:175-219 | no text at all is read past its end unless its last character is a blank |
| Departures.FiveBlank | src/cmpl_internal.c:175-219 | "5 " is read past its end |
| Departures.RereadIff | src/cmpl_internal.c:84-98 | a folded operand is read back if and only if it is below 2^63, or its text names an absolute symbol of that value |
| Departures.FiveMinusThree | src/cmpl_internal.c:162 | "5-3" is folded to -2 |
| Departures.GroupPlusTwo | src/cmpl_internal.c:194 | "(1)+2" is not read without an error |
| Departures.TooLarge | src/cmpl_internal.c:128 | 2^63 is not read back as an operand |
| Departures.SevenIsZero | src/cmpl_internal.c:229-247 | a symbol that stands for 7 gives 0 by itself |
| Departures.FiveCaretThree | src/cmpl_internal.c:6-8 | "5^3" is read as 5 |
| Departures.CaretInWord | src/cmpl_internal.c:6-8 | `^` joins its operands into one name |
| Substitution.Count | src/cmpl_control.c:21-28 | the counting scan gives the bytes of the result with its terminator |
| Substitution.SubstituteWord | src/cmpl_control.c:20-43 | the copying scan fills the counted buffer exactly, the terminator last |
| Substitution.LeftmostReplacement | src/cmpl_control.c:31-41 | the result is the leftmost non-overlapping replacement of the backslash-parameter |
| Substitution.FirstParameter | src/cmpl_control.c:20-43 | after text without backslashes, a backslash with the name is replaced, and one without is kept |
| Substitution.AnyOrder | src/cmpl_control.c:165-180 | parameters applied one after another in any order are all applied at once |
| Substitution.SequentialIsSimultaneous | src/cmpl_control.c:165-180 | so are they in the order of the loop |
| Driver.SubstituteFileByPasses | src/cmpl_control.c:3-47 | all words of all lines, header kept |
| Driver.ExpandByPasses | src/cmpl_control.c:164-180 | one pass per parameter; an argument is missing if and only if a parameter without default has none |
| Stream.Bind | src/cmpl_control.c:166-174 | a default is what follows the first equals sign and always wins, else the parameter takes the argument in its place |
| Stream.LineAt | src/compile.c:91-101 | line i of a list stands under its name and its own number |
| Stream.LabelText | src/compile.c:105-106 | a label is a text without a colon, with a colon after it |
| Stream.AfterLabels | src/compile.c:103-115 | after any labels comes the word and its operands, or nothing |
| Driver.FileStack.NextLine | src/compile.c:91-101 | shifting headers and dropping used-up files reads the one line stream, each line under its own name and number |
| Driver.FileStack.Reload | src/cmpl_control.c:76-79 | pushing a header back changes nothing of the stream |
| Driver.FileStack.Prepend | src/cmpl_control.c:183 | a list on the stack is read before the rest |
| Driver.FileStack.PrependPerOperand | src/cmpl_control.c:197-198 | the reversed operands give copies in source order |
| Driver.FileStack.PrependPerChar | src/cmpl_control.c:190-193 | the characters give copies in source order |
| Driver.Driver.Include | src/cmpl_control.c:116-121 | the head of the stream is replaced by the file |
| Driver.Driver.MacroSub | src/cmpl_control.c:160-184 | a call replaces the head by its expansion, or fails and loses the operands of the definition |
| Driver.Driver.BeginCapture | src/cmpl_control.c:81-115 | a capture starts at the name and line of its opener |
| Driver.Driver.EndMacro | src/cmpl_control.c:155-159 | the captured lines become the macro of the name |
| Driver.Driver.EndRepeat | src/cmpl_control.c:185-202 | the block is replaced by its copies |
| Driver.Driver.CapturedLine | src/compile.c:259-299 | a line inside a capture, with nesting by the history stack |
| Driver.Driver.PlainLine | src/compile.c:103-253 | a line outside of captures |
| Driver.Driver.Run | src/compile.c:90-305 | any number of lines read from the stack of files is as many steps of the line stream |
| Expansion.StepsThen | src/compile.c:90-105 | until the lines on top are used up, the suspended lines under them make no difference to any number of steps |
| Expansion.Inserted | src/compile.c:90-105 | inserted lines do what they do alone, whatever they include, call, repeat, define or capture in turn; then the suspended lines go on under their own names and numbers |
| Expansion.OrdinaryRun | src/compile.c:99-101 | lines that insert nothing are met in order, and what was suspended goes on as it was |
| Expansion.StopsIff | src/compile.c:144-180 | the lines that stop the model |
| Expansion.IncludeRun | src/cmpl_control.c:116-121 | an include runs as the lines of its file do alone, nested insertions included; then the including file goes on |
| Expansion.CaptureLines | src/compile.c:259-299 | as long as the depth is not 0, exactly the lines that are not blank or label-only are captured, in order, for any lines |
| Expansion.NestedDepth | src/compile.c:270-279 | properly nested blocks leave the depth as it was, so only the closer of the opener ends a capture |
| Expansion.CloserIff | src/compile.c:278-292 | a closing word ends the capture if and only if the depth is 1 and it is the exact word; else it only closes an inner block |
| Expansion.DepthIff | src/compile.c:270-292 | the words that raise and lower the depth of a capture, written out, and by one only |
| Expansion.EndMacroWord | src/compile.c:278-291 | ".endmacro" closes inner blocks only |
| Expansion.MacroStored | src/compile.c:286-291 | the stored macro is the lines between opener and balancing closer |
| Expansion.RepeatRun | src/cmpl_control.c:185-202 | a repeat runs as its copies do alone, one per operand in source order, nested insertions included; then the lines after it go on |
| Expansion.CopyAt | src/cmpl_control.c:196-199 | line i of copy c, by number: the body's line with every word's symbol replaced by operand c |
| Expansion.CharCopyAt | src/cmpl_control.c:188-194 | the same for character c of the operand of `.irpc` |
| Expansion.WordExpanded | src/cmpl_control.c:165-180 | every word of a call has all parameters replaced at once |
| Expansion.CallRun | src/cmpl_control.c:160-184 | a call runs as its expansion does alone, nested insertions included; then the calling file goes on |
| Expansion.DefinitionKept | src/cmpl_control.c:160-184 | a call keeps the definitions if and only if no argument is missing |
| Expansion.MissingArgument | src/cmpl_control.c:174 | a macro with one parameter has lost it after a call without an argument |
| Layout.EmitterAdds | src/cmpl_data.c:102-341 | every directive and instruction adds at most one chunk, advances by its bytes (one more in the short form), and reserves zeroed slots inside it |
| Layout.DataAdds | src/cmpl_data.c:102-112 | each operand of a data directive has its own slot |
| Layout.LittleEndianValue | src/cmpl_data.c:107-108 | a value that fits its slot is read back from its bytes |
| Encoding.LittleEndianAt | src/cmpl_data.c:107-108 | byte k of a value is made of its bits from 8k on, whether it fits or not |
| Encoding.DataSlots | src/cmpl_data.c:102-112 | slot i holds the value of operand i if that is known, else zeros, and the text that is left is noted for it |
| Encoding.DataErrors | src/cmpl_data.c:102-112 | a data directive has errors if and only if one of its operands has |
| Encoding.ImmediateForms | src/cmpl_data.c:265-330 | for every form of instruction, the bytes before its immediate, and the immediate's slot with its value |
| Encoding.RegisterForms | src/cmpl_data.c:257-264 | the bytes of instructions on one register or none |
| Encoding.PairForms | src/cmpl_data.c:247-256 | the bytes of two registers, the second first, or the refusal of two pointers or two widths |
| Encoding.OperandCount | src/cmpl_data.c:247-341 | any other number of operands is refused without a byte |
| Encoding.WrongSort | src/cmpl_data.c:247-341 | so are operands of the wrong sort |
| Encoding.RegisterIff | src/cmpl_data.c:48-85 | only the texts of registers are read as registers |
| Encoding.RegisterNumbers | src/cmpl_data.c:65-80 | r1 to r13, bp, sp and ip are numbered from 0 to 15 |
| Encoding.TypeIff | src/cmpl_data.c:93-100 | what is taken for an immediate and what for a register |
| Encoding.StringBytes | src/cmpl_data.c:133-161 | each string, without its quotes, stands after those before it, with its end |
| Encoding.NoOperands | src/cmpl_data.c:102-161 | data and string directives without operands do nothing |
| Encoding.SkipBytes | src/cmpl_data.c:162-171 | `.skip` emits the low byte of its value as often as said, or refuses |
| Encoding.FillBytes | src/cmpl_data.c:172-187 | `.fill` emits its value in each copy, of at most 8 bytes, or refuses |
| Encoding.AlignBytes | src/cmpl_data.c:188-204 | what `.align` pads with, how much, and when not |
| Encoding.OrgBytes | src/cmpl_data.c:205-218 | what `.org` fills up with, and when not |
| Layout.RegisterRoundTrip | src/cmpl_data.c:48-85 | every register, extended or pointer, is read back from its text |
| Layout.RegistersEncoded | src/cmpl_data.c:252-254 | the two bytes of an operand pair give both registers and the pointer mark back |
| Layout.StepKeeps | src/cmpl_data.c:25-46 | every statement keeps a section's bytes, its address balance and its slots |
| Layout.AddressIsBytes | src/cmpl_data.c:308-317 | after any statements, errors or not, address = bytes + short instructions |
| Layout.SlotsReserved | src/cmpl_internal.c:237-245 | in an error-free run slots lie inside the section, pairwise disjoint; in the bytes each is further to the front by the number of short instructions before it, disjoint from the others and zero |
| Layout.LabelOffset | src/compile.c:109-112 | a label is the offset of what follows plus the short instructions before it; the bytes before it never change |
| Layout.LabelAfterShift | src/cmpl_data.c:308-317 | after "shl $1, %r1" there are three bytes and a label stands for 4 |
| Layout.AlignReaches | src/cmpl_data.c:188-204 | `.align` reaches a multiple if and only if the padding is not held back by the maximum |
| Layout.OrgReaches | src/cmpl_data.c:205-218 | `.org` reaches its address exactly, or leaves a section that is past it |
| Symbols.Started | src/compile.c:85-87 | the assembler starts in an empty `.text` |
| Symbols.Assigned | src/cmpl_data.c:219-222 | after `.equ` later expressions see the value of its operand |
| Symbols.AssignedOnce | src/cmpl_data.c:223-228 | `.equiv` does the same for a new name and refuses an old one |
| Symbols.DotAssigned | src/cmpl_data.c:26-34 | assigning to "." fills up with zeros to a higher address |
| Symbols.DotSeen | src/cmpl_internal.c:85 | "." is seen as the address of the current section |
| Symbols.Labelled | src/compile.c:105-112 | the first label of a name counts, and expressions with it are left for later |
| Symbols.MadeGlobal | src/cmpl_data.c:11-24 | `.globl` exports a name and leaves it what it stands for |
| Symbols.Reserved | src/cmpl_data.c:229-241 | `.comm` and `.lcomm` name zeros at the end of `.bss` |
| Symbols.Emitted | src/cmpl_data.c:102-341 | what is emitted is added to the current section and changes nothing else |
| Symbols.Switched | src/cmpl_internal.c:252-265 | a switch of sections changes none of them, and a new one is empty |
| Symbols.SectionsApart | src/compile.c:103-253 | no statement changes another section than the current one, `.bss` for `.comm` excepted |
| Emitters.OpenSection.ParseExpression | src/cmpl_internal.c:233-250 | a deferred expression is noted at the current address |
| Emitters.OpenSection.ParseInt | src/cmpl_data.c:102-112 | the loop over operands fills one buffer and notes every deferred one |
| Emitters.StringsBuffer | src/cmpl_data.c:133-161 | the counted buffer holds the strings, each with its end |
| Emitters.CopiesBuffer | src/cmpl_data.c:182-185 | the buffer of `.fill` holds the value as often as said |
| Emitters.OpenSection.Emit | src/cmpl_data.c:102-341 | the section after a directive, as its output says |
| Emitters.Flatten | src/compile.c:326-335 | flattening never leaves its buffer, and the buffer starts with all chunks in order |
| Link.Linker.LinkPart | src/compile.c:3-11 | a section with data is placed at the address and its data taken away |
| Link.Linker.Run | src/compile.c:13-74 | the nested loops of each form of the command, with its errors |
| Link.ScriptPlaces | src/compile.c:3-74 | for any script a section has a base if and only if it is placed, its bytes stand there, placed ranges are disjoint, and `file *` places all |
| Link.PlacedOnce | src/compile.c:19-30 | a recorded base is never changed: no section is placed twice |
| Link.OnePartIff | src/compile.c:59-73 | `file name section` succeeds if and only if the section exists and has its data |
| Placement.CommandPlaces | src/compile.c:13-74 | after each form of the command exactly what was placed before and the sections it names are placed, the new ones behind all others and in table order; and when it is an error |
| Placement.OnlyBytes | src/compile.c:371-425 | bytes of the script are appended and place nothing |
| Placement.NoGaps | src/compile.c:3-74 | over any script the address is the sizes of the placed sections and the script's own bytes together |

## Left out

- Expr.Apply2: a shift by 64 or more is taken modulo 64; C leaves it undefined.
- Residual.PartialEvaluation: like all theorems about what is left for later, it takes the names of symbols to be made of the characters of names. Labels and `.equ` accept any word, and a symbol called "-2" or "(a+b)" would capture a text that the engine has made.
- Layout.Evaluate: a text that is read past its end counts as one error, which the code does not report; what it reads there is not modelled.
- Emitters.Flatten: the bytes after the chunks, one per short instruction, are unspecified, as they are in memory that was only allocated.
- HashMap.HashMap.Rehash: the new capacity is the integer quotient of four thirds of the size, without floating point.
- Devices.CpuDevice.CacheWrite: stores that span two lines or write 16 bits use the wrong masks and widths in the code (`src/kyanite_legacy.c:296-307`).
- Devices.CpuDevice.DoWork: the parser and the interrupt entry are one event per tick, and only what they do to the cache, the bus and the detours; registers, fault flags and a second check in the same tick are not modelled.
- Devices.System.TimerExecutor: timers are events that may come in any tick; counters, limits and the watchdog are not modelled.
- Devices.System.Execute: all devices run in every tick; frequency dividers and stopped devices are not modelled.
- Devices.System.BoardExecutor: port I/O is not modelled, since nothing sets the bit that selects it; the interrupt number has a field of its own beside the word on the bus.
- Driver.Driver.Run: an error in `.include`, `.macro`, `.irp`, `.irpc` or in a call stops the model, because the code then takes a line for a header; so do conditionals, whose skipped lines are collected all the same (`src/compile.c:299`). An ordinary statement is recorded, and assumed not to end the assembly.
- Substitution.Count: sizes are unbounded integers.
- Layout.AddressIsBytes: addresses and sizes are unbounded, since memory for 2^64 bytes cannot be had; values are 64 bits wide.
- Emitters.OpenSection.Emit: the floating-point directives are missing, and the bytes of instructions come from the output function.
- Layout.EmitterAdds: strings are taken with at least two characters each, the floating-point directives are missing, and so is the crash of an expression that names a symbol only declared by `.globl`.
- ALU, jump and flag instructions, and the instructions that are stubs.
- The whole interrupt entry and the restart of an instruction after a miss: the instruction pointer and the stack pointer move before the cache is checked.
- The hub executor, which takes its board for one of another layout.
- The lexer, file reading, and error texts; errors are counted where the code counts on.
- `link()` beyond placement: it returns nothing and applies no relocation.
- `hm_erase` and the hash sets, which erase by comparing pointers and are unused; the hash function is a parameter.
- Allocation, freeing, and code that is commented out.
