# The multi-precision arithmetic and the tasks around it

A Dafny model of the two parts of this embedded TLS demo that carry an algorithm of their own: the multi-precision
arithmetic, from the inner loop (`include/mbedtls/bn_mul.h`) to the products of whole numbers, plain and modular
(`src/mbedtls/bignum.c`), and the FreeRTOS tasks that share a slot table, a message queue and an event memory
(`demos/server.c`, `demos/tls_server.c`, `demos/client.c`, `main.c`).

`dafny verify dfyconfig.toml` checks everything.

## The row

`MULADDC_INIT`, `MULADDC_CORE` (or `MULADDC_HUIT`, eight limbs at once) and `MULADDC_STOP` exist in many versions
with one promise: multiply the vector `[s]` by the limb `b`, add the product into the vector `[d]`, set the
carry `c`. Module `Row` states that promise once. A `State` is one memory of limbs, two limb indices into it and
the carry; since both vectors lie in one memory they may be disjoint, equal, or overlap in any way. `Steps` is the
row limb by limb, and `RowEquation` is what a row is for: the result and the outgoing carry together are the old
destination plus the source times `b` plus the incoming carry. `RowTheorem` proves the equation
and what else a row leaves behind, `RowUnique` that nothing else satisfies it.

Each version is a class. Its fields are the registers and flags of that program, its methods are INIT, CORE, HUIT
and STOP, instruction by instruction, and each method says what it does to the `View`: the `State` that
registers, flags and memory stand for. The base is arbitrary; programs that work on half words are parametric in the
base `h` of a half word, and their limbs lie below `h * h`. Wrap-around, carry flags, comparisons, shifts, masks and
truncating products are written out in `Words`. Where an instruction leaves a flag that the program does not
use again, the flag is given any value.

* `PortableC`: the double-width and the half-word C programs, and a run of both side by side.
* `Arm`: the `umlal` program, which `config/mbedTLSConfig.h` selects for the board, and the Thumb-1 program.
* `Ppc`: the PowerPC programs, where the carry of one limb stays in the flag CA across the next loads and stores.
* `M68k`: CORE, and the unrolled block in which the upper half moves between `d3` and `d4` and the carry
  of the memory addition waits in the flag X.
* `I386`: CORE, and the SSE2 block, whose loads run ahead of its stores. `Block` describes it for every way the
  vectors can lie, overlapping ones included: a row fed with limbs that were loaded at three different moments.
* `Risc`, `MicroBlaze`: MIPS, Alpha, and the big-endian program that loads half words.

`MulAddC` and its namesakes compose INIT, CORE, HUIT and STOP to whole rows, for `M68k` and `I386` along any `Plan`
of unrolled blocks, single limbs and interruptions.

What the code does not promise by itself:

* A row of single limbs satisfies the row equation for all memories if and only if the destination does not start
  inside the source, behind its first limb (`Row.RowCorrectIff`). Equal vectors are fine.
* The SSE2 block does what eight single steps do, for all memories, if and only if the destination does not start one
  to five limbs behind the source (`I386.BlockIsStepsIff`), and the same goes for any plan that has such a block
  (`I386.RunIsStepsIff`). That is not the condition for the row equation: one to three limbs behind the source, one
  block alone satisfies it where single steps do not, because it has loaded all eight limbs in time. With any other
  piece, and from four limbs on, it fails as it does for single limbs (`I386.RunEquationIff`).
* The 68k block is eight single steps if and only if the flag X is clear on entry (`M68k.Machine.Huit`). INIT does
  not clear X and CORE and HUIT leave it clear, so only a HUIT right behind an INIT depends on it. The model takes
  the flag an INIT finds as a parameter. A plan is a row if and only if no block in it is entered with X set
  (`M68k.MulAddC`): what follows never repairs the wrong limb.

## The numbers

* `Blocks`, `Bignum`: numbers as a sign and a block of limbs in one memory, with the addresses in use. Asking for a
  block may fail, or bring any block that is not in use; the heap counts the refusals. Every contract says what becomes
  of all other blocks, when the call fails, and that what was in use leaves nothing behind (`Clean`).
* `MulHlp`: the loop around the row, in both ways the preprocessor can choose it, and the carry behind it. The model
  stops where the carry would leave the destination; whether it does is part of the result.
* `MulMpi`: the product of two numbers, any of which may be the same.
* `SubHlp`: subtraction in place and comparison.
* `Montgomery`, `MontMul`: the negative inverse of a limb, and the product modulo an odd number.

What the code does not promise by itself:

* The carry is added to the limb behind the row even if it is zero, so the helper needs one limb more than the row has
  (`MulHlp.MulHlp`). Both callers provide it.
* The result of the modular product is below the modulus if one of the factors is (`MontMul.MontMul`); otherwise it only
  has as many limbs as the modulus.

## The tasks

Preemption is on, so tasks interleave at every shared access. The server and the display queue are state machines
with one step per shared read, shared write or call; properties hold of every finite sequence of steps from the start.

* `SlotTable`, `SlotScan`, `SlotService`: the acceptor that scans `s[]` without a lock, and the handlers that use
  and free their slots; what the scan is worth; and what can always still happen. The number of slots is a parameter
  (6 in `demos/server.c`, 3 in `demos/tls_server.c`).
* `LcdQueue`: buffers on their way through the one-element queue to the display task, with any number of producers,
  server handlers and clients mixed, and with the event watcher, which allocates too.
* `Watcher`, `Echo`, `Client`: the sequential code of the event watcher, of one connection handler and of the client.
* `Decimal`: digits of a number in any radix, and the size of the buffer for numbers as text.

Assumptions about the surroundings: accepting returns a negative number or one that is not open at that moment,
possibly one that has been closed before; a receive call returns -1, 0 or a length up to the size it was given;
the memory allocations of the tasks succeed; closing a descriptor closes it. Creating a task may fail: the result is
not looked at (`demos/server.c:95`), and the model has a step for it.

What the code does not promise by itself:

* If the handler task cannot be created, its slot stays occupied and its connection open for ever
  (`SlotTable.LostHappens`, `SlotTable.LostForever`). At rest, all accepted connections have been closed if and only
  if this never happened. When it has happened to every slot, no connection is served any more, and not before
  (`SlotService.CanServeIff`).
* Two slots can hold the same descriptor number at the same time; then one of them belongs to a handler that has closed
  it already (`SlotTable.SharedNumberHappens`, `SlotTable.SharedNumber`).
* The watcher fills a buffer for every event it raises, but neither queues nor frees it. The bound on live buffers is
  the number of producers plus two, or plus one if all of them are server handlers, plus the number of events raised
  so far (`LcdQueue.LiveBounded`), and it is reached (`LcdQueue.LiveReached`).
* `MPI_RW_BUFFER_SIZE` keeps its sixteen spare characters for every maximum size except zero bits
  (`Decimal.RwBufferSuffices`).
* The end-of-message test reads in front of its buffer if and only if it is given fewer than four characters
  (`Echo.EofReadsIff`), and a peer can make that happen (`Echo.ShortHappens`). The model lets the test answer anything
  then; what the handler sends does not depend on the answer.

## Model

| member | source | states |
|---|---|---|
| Row.RowTheorem | include/mbedtls/bn_mul.h:25-26 | for every memory, multiplier and carry, after any number of steps: the row equation holds, limbs and carry fit, only the destination is written, both pointers have moved on by the number of steps, and a disjoint source is untouched; only a destination that starts inside the source is excluded |
| Row.RowValue | include/mbedtls/bn_mul.h:25-26 | after any number of steps, result and outgoing carry make up old destination plus source times `b` plus incoming carry, unless the destination starts inside the source |
| Row.RowUnique | include/mbedtls/bn_mul.h:25-26 | limbs and a carry satisfy the equation if and only if they are the ones the row computes |
| Row.RowCorrectIff | include/mbedtls/bn_mul.h:25-26 | for a row of single limbs, the equation holds for all memories, multipliers and carries if and only if `d <= s` or `s + n <= d` |
| Row.OverlapBreaksRow | include/mbedtls/bn_mul.h:25-26 | for every destination inside the source, a memory on which the equation fails |
| Row.AliasedRow | include/mbedtls/bn_mul.h:850-862 | with source and destination the same vector, the row multiplies it by `b + 1` and adds the carry |
| Row.SumFits | include/mbedtls/bn_mul.h:831-837 | product plus limb plus carry never exceeds two limbs, so the new carry is a limb again |
| Row.StepsFit | include/mbedtls/bn_mul.h:25-26 | limbs stay limbs and the carry stays a limb for any number of steps |
| Row.StepsSplit | include/mbedtls/bn_mul.h:48-152 | stopping after any limb, with pointers and carry saved, and going on from there is the uninterrupted row |
| Words.WrapCaught | include/mbedtls/bn_mul.h:858-861 | a wrapping addition keeps the sum modulo the base, and it wrapped exactly if its result is below either operand |
| Words.Halves | include/mbedtls/bn_mul.h:847-852 | shifting right takes the upper half, shifting left and back the lower half, and the two halves make up the word |
| Words.HalfProductFits | include/mbedtls/bn_mul.h:853-854 | the product of two half words is not truncated |
| Words.HalfWordProduct | include/mbedtls/bn_mul.h:851-857 | the four half-word products, the middle two split over both words, make up the full product |
| Words.StepIs | include/mbedtls/bn_mul.h:858-862 | if the two parts of the product are as given and the lower sum wrapped `k` times, then storing that sum and adding `k` to the upper part is one step, and the upper part stays a limb |
| PortableC.DoubleWord.Init | include/mbedtls/bn_mul.h:826-829 | starts from the caller's memory, pointers and carry |
| PortableC.DoubleWord.Core | include/mbedtls/bn_mul.h:831-837 | is one step of the row |
| PortableC.HalfWord.Init | include/mbedtls/bn_mul.h:843-848 | starts from the caller's memory, pointers and carry, with `b` cut in halves |
| PortableC.HalfWord.Core | include/mbedtls/bn_mul.h:850-862 | is one step of the row, for every half-word width |
| PortableC.UpperWordFits | include/mbedtls/bn_mul.h:853-861 | neither middle product nor the running upper word ever wraps, however often the lower word does |
| PortableC.SameRow | include/mbedtls/bn_mul.h:826-865 | the two C programs, run side by side for any number of limbs, end with the same limbs, carry and pointers: those of the row |
| Arm.Machine.Init | include/mbedtls/bn_mul.h:619-624 | starts from the caller's memory, pointers and carry |
| Arm.Machine.Core | include/mbedtls/bn_mul.h:626-633 | the `umlal` program is one step; the flag from `adds` is the one `adc` consumes |
| Arm.Machine.Stop | include/mbedtls/bn_mul.h:635-638 | hands the carry and both pointers back |
| Arm.MulAddC | include/mbedtls/bn_mul.h:619-643 | the whole program is the row, and satisfies the row equation unless the destination starts inside the source |
| Arm.Thumb.Init | include/mbedtls/bn_mul.h:564-574 | starts from the caller's memory, pointers and carry, with `b` cut in halves |
| Arm.Thumb.Core | include/mbedtls/bn_mul.h:576-605 | is one step, whatever shifts and products do to the carry; moving zero into `r2` keeps it, and the next addition relies on that |
| Arm.Thumb.Stop | include/mbedtls/bn_mul.h:607-610 | hands the carry and both pointers back |
| Arm.ThumbMulAddC | include/mbedtls/bn_mul.h:564-615 | the whole program is the row, and satisfies the row equation unless the destination starts inside the source |
| Ppc.Machine.Init | include/mbedtls/bn_mul.h:373-381 | starts with CA clear, both pointers one limb back |
| Ppc.Machine.Core | include/mbedtls/bn_mul.h:383-391 | is one step on the carry `r5 + CA`, which fits one limb after every step |
| Ppc.Machine.Stop | include/mbedtls/bn_mul.h:393-399 | the last `addze` does not wrap: it yields the carry of the row, and the pointers are moved forward again |
| Ppc.MulAddC | include/mbedtls/bn_mul.h:373-403 | the whole program is the row, and satisfies the row equation unless the destination starts inside the source |
| Risc.Mips.Init | include/mbedtls/bn_mul.h:685-690 | starts from the caller's memory, pointers and carry |
| Risc.Mips.Core | include/mbedtls/bn_mul.h:692-706 | is one step; both carries are recovered by `sltu` |
| Risc.Mips.Stop | include/mbedtls/bn_mul.h:708-711 | hands the carry and both pointers back |
| Risc.MipsMulAddC | include/mbedtls/bn_mul.h:685-715 | the whole program is the row, and satisfies the row equation unless the destination starts inside the source |
| Risc.Alpha.Init | include/mbedtls/bn_mul.h:651-656 | starts from the caller's memory, pointers and carry |
| Risc.Alpha.Core | include/mbedtls/bn_mul.h:658-671 | is one step; both carries are recovered by `cmpult` |
| Risc.Alpha.Stop | include/mbedtls/bn_mul.h:673-676 | hands the carry and both pointers back |
| Risc.AlphaMulAddC | include/mbedtls/bn_mul.h:651-680 | the whole program is the row, and satisfies the row equation unless the destination starts inside the source |
| MicroBlaze.Machine.Init | include/mbedtls/bn_mul.h:482-489 | starts from the caller's memory, pointers and carry, with `b` cut in halves |
| MicroBlaze.Machine.Core | include/mbedtls/bn_mul.h:491-516 | is one step, with the source pointer moved by two half words |
| MicroBlaze.Machine.Stop | include/mbedtls/bn_mul.h:518-521 | hands the carry and both pointers back |
| MicroBlaze.MulAddC | include/mbedtls/bn_mul.h:482-526 | the whole program, which loads each source limb as two half words, is the row, and satisfies the row equation unless the destination starts inside the source |
| M68k.Machine.Init | include/mbedtls/bn_mul.h:191-197 | starts from the caller's memory, pointers and carry, and leaves X as it finds it |
| M68k.Machine.Core | include/mbedtls/bn_mul.h:199-206 | is one step and leaves X clear, whatever X was |
| M68k.Machine.Limb | include/mbedtls/bn_mul.h:218-222 | one limb of the unrolled block is a step on the carry register plus X, whichever of `d3` and `d4` holds it |
| M68k.Machine.EightLimbs | include/mbedtls/bn_mul.h:218-257 | eight such limbs are eight steps on the register plus X |
| M68k.Machine.HuitAnyFlag | include/mbedtls/bn_mul.h:217-258 | for either value of X on entry, the block is eight steps from a carry that includes X, and its own carry is `d3 + base * X` |
| M68k.Machine.Huit | include/mbedtls/bn_mul.h:217-258 | the block is eight steps if and only if X is clear on entry, and then leaves it clear; otherwise its first limb is wrong |
| M68k.CarryInShows | include/mbedtls/bn_mul.h:217-220 | a stray one in the incoming carry changes the result |
| M68k.Machine.Stop | include/mbedtls/bn_mul.h:208-211 | hands the carry and both pointers back |
| M68k.RunPiece | include/mbedtls/bn_mul.h:191-258 | any block, single limb or STOP/INIT pair is as many steps, unless it is a block that finds X set; only its own limbs are written |
| M68k.MulAddC | include/mbedtls/bn_mul.h:191-258 | any plan of blocks, single limbs and STOP/INIT pairs is one row if and only if no block is entered with X set, for every memory; where the destination does not start inside the source, the same condition decides whether it satisfies the row equation |
| I386.Machine.Init | include/mbedtls/bn_mul.h:48-54 | starts from the caller's memory, pointers and carry |
| I386.Machine.Core | include/mbedtls/bn_mul.h:56-64 | is one step |
| I386.ColumnFits | include/mbedtls/bn_mul.h:68-129 | no column overflows its 64-bit register, in whichever order its three terms are added |
| I386.Machine.HuitColumn0 | include/mbedtls/bn_mul.h:69-88 | the part up to the first store finishes column 0 and leaves columns 1 to 3 summed up in `mm3`, `mm5` and `mm7` |
| I386.Machine.HuitColumn1 | include/mbedtls/bn_mul.h:89-98 | finishes column 1, with source limbs 4 to 6 loaded after the first store |
| I386.Machine.HuitColumns2And3 | include/mbedtls/bn_mul.h:99-110 | finishes columns 2 and 3, with source limb 7 loaded after the second store |
| I386.Machine.HuitColumns4To7 | include/mbedtls/bn_mul.h:111-129 | finishes the rest, moves both pointers by eight limbs and leaves the carry in `ecx` |
| I386.Machine.Huit | include/mbedtls/bn_mul.h:68-129 | the SSE2 block is `Block`, however the vectors overlap |
| I386.LoadSees | include/mbedtls/bn_mul.h:73-99 | each source limb is loaded from the memory left by zero, one or two stored limbs |
| I386.BlockFollowsSteps | include/mbedtls/bn_mul.h:68-129 | column by column, block and single steps agree if no limb is stored between its early load and its turn |
| I386.BlockReadsEarly | include/mbedtls/bn_mul.h:73-99 | for each of the offsets one to five, a memory on which the block stores a zero where single steps store a one |
| I386.BlockIsStepsIff | include/mbedtls/bn_mul.h:68-129 | the block is eight steps for all memories if and only if `d <= s` or `s + 6 <= d` |
| I386.Machine.Stop | include/mbedtls/bn_mul.h:131-136 | hands the carry and both pointers back |
| I386.RunFollows | include/mbedtls/bn_mul.h:48-152 | a plan of blocks, single limbs and STOP/INIT pairs is one row, if it has no block or the destination does not start one to five limbs behind the source |
| I386.RunBreaks | include/mbedtls/bn_mul.h:68-129 | for every other plan and offset, a memory on which the result is not that of the row |
| I386.RunIsStepsIff | include/mbedtls/bn_mul.h:48-152 | a plan is one row for all memories if and only if it has no block, or `d <= s`, or `s + 6 <= d` |
| I386.BlockEquation | include/mbedtls/bn_mul.h:68-129 | one to three limbs behind the source, the block satisfies the row equation, although single steps do not: it has loaded every source limb before overwriting it |
| I386.RunEquation | include/mbedtls/bn_mul.h:48-152 | a plan satisfies the row equation wherever `ReadsIntact` holds |
| I386.EquationBreaks | include/mbedtls/bn_mul.h:48-152 | for every other plan and offset, a memory on which the row equation fails |
| I386.RunEquationIff | include/mbedtls/bn_mul.h:48-152 | a plan satisfies the row equation for all memories if and only if `d <= s`, or `s + n <= d`, or `d <= s + 3` and the plan is one block and no other limb |
| I386.MulAddC | include/mbedtls/bn_mul.h:48-152 | the program of a plan computes `Run`, however the vectors overlap; that is one row if there is no block or the destination does not start one to five limbs behind the source; the row equation holds where `ReadsIntact` does: `d <= s`, or `s + n <= d`, or one block alone with `d <= s + 3` |
| SlotTable.InitInv | demos/server.c:61-63 | the invariant holds of the emptied table |
| SlotTable.StepInv | demos/server.c:78-97 | every step of the acceptor and of every handler keeps the invariant |
| SlotTable.RunInv | demos/server.c:78-212 | the invariant holds after every run: slots and owners, connections and responsible parties, and descriptors all point at each other |
| SlotTable.OccupiedIffOwned | demos/server.c:94-212 | a slot is occupied if and only if a party owns it, and no two parties own the same slot |
| SlotTable.HandlersBounded | demos/server.c:84-95 | handlers, lost slots and the acceptor between store and creation account for the occupied slots exactly, so there are never more than there are slots |
| SlotTable.UseIsOwn | demos/server.c:147-202 | whatever number a handler has read from its slot, when it receives, sends or closes, that number is open and stands for the handler's own connection; closing closes that connection |
| SlotTable.AcceptorIsOwn | demos/server.c:79-94 | from accepting to storing or turning away, the acceptor's number is open and stands for the connection it has accepted; turning away closes that connection |
| SlotTable.ClosedOnce | demos/server.c:79-202 | every accepted connection is either open, under one number, or has been closed, once |
| SlotTable.SharedNumber | demos/server.c:94-212 | if two slots hold the same number, whoever owns them, a handler that has closed its connection already owns one of them |
| SlotTable.SharedNumberHappens | demos/server.c:202-212 | a run after which two slots hold the same number |
| SlotTable.LostHappens | demos/server.c:94-95 | a run after which a slot has no handler and its connection is open |
| SlotTable.LostForever | demos/server.c:94-95 | a slot whose handler could not be created keeps its number, and its connection stays open, whatever happens afterwards |
| SlotTable.LostIffFailed | demos/server.c:95 | there are such slots if and only if a creation has failed |
| SlotTable.AllClosedIff | demos/server.c:78-212 | with no handler left and the acceptor waiting, all accepted connections have been closed if and only if no creation has failed |
| SlotService.OccupiedCount | demos/server.c:94-212 | after every run, as many slots are occupied as have been stored in, less those cleared since |
| SlotService.ClearFrees | demos/server.c:212 | clearing makes the slot of that handler free again, and leaves every other slot and handler as it is |
| SlotService.NextSteps | demos/server.c:78-212 | in every state a run can reach, exactly these steps can come next: that of the acceptor where it stands, and that of each handler in its phase; none waits for another, and every slot number lies in the table |
| SlotService.ScanFinds | demos/server.c:84-94 | a scan that is left alone goes on to store at the first free slot behind those it has passed, or turns away if there is none |
| SlotService.UseRepeats | demos/server.c:147-171 | a handler can read its slot and use the connection again and again |
| SlotService.HandlerEnds | demos/server.c:202-214 | a handler can always close its connection, which is open until then, and free its slot, and nothing else changes |
| SlotService.CanDrain | demos/server.c:78-214 | from every state, the server can come to rest without accepting anything: then exactly the lost slots are occupied, and every connection not closed was lost with one of them |
| SlotService.CanServe | demos/server.c:78-97 | as long as not every slot is lost, the server can still accept a connection and start a handler for it |
| SlotService.CanServeIff | demos/server.c:84-95 | it can do that if and only if not every slot is lost |
| SlotScan.ScanLooksBack | demos/server.c:84-86 | the slots that a scan has passed were all occupied at the moment of its first read, and none has become occupied since |
| SlotScan.RejectionLinearizable | demos/server.c:84-90 | a connection is turned away only if all slots were occupied at once, at the first read of its scan |
| SlotScan.FreeAtWrite | demos/server.c:84-94 | a slot found free is still free when the acceptor writes to it, and nothing but that slot changes |
| LcdQueue.StepInv | main.c:271-292 | every step of producers, display task and watcher keeps the invariant |
| LcdQueue.RunInv | demos/server.c:174-182 | the invariant holds after every run |
| LcdQueue.OnePlace | demos/server.c:174-182 | every buffer ever allocated is in exactly one place, once: with a producer, in the queue, with the display task, dropped, or freed; none of the watcher's is ever sent, shown or freed |
| LcdQueue.FreedAtMostOnce | main.c:290 | a buffer that is about to be sent, shown or freed has not been freed |
| LcdQueue.SendOutcome | demos/client.c:88-89 | a buffer is refused if and only if the queue holds another at that moment; otherwise the queue and the list of buffers sent gain exactly this one; nothing else changes either way |
| LcdQueue.LookOutcome | demos/server.c:176 | a server handler finds space if and only if the queue is empty at that moment |
| LcdQueue.NextSteps | demos/server.c:174-182 | in every state a run can reach, exactly these steps can come next: that of each producer, who never waits, that of the display task unless it waits for an empty queue, and the watcher's |
| LcdQueue.FreedUnshown | demos/server.c:180-181 | every buffer that is freed without having been shown, or about to be, was refused at a step at which another was in the queue |
| LcdQueue.CanSettle | main.c:271-290 | from every state, all that has been sent can be shown, and producers and display task come to rest |
| LcdQueue.ShownInOrder | main.c:271-290 | messages are shown in the order in which they were put into the queue, without gaps, at most two behind |
| LcdQueue.LiveCount | demos/client.c:84-89 | live buffers are those of the producers, the queue, the display task and the watcher, exactly |
| LcdQueue.LiveBounded | main.c:51-59 | live buffers never exceed events raised plus the producers and two, or the producers and one if all are server handlers, and at rest are exactly the events raised |
| LcdQueue.LiveReached | demos/server.c:176-182 | for every set of producers and every number of events, some run reaches that bound |
| Watcher.Task.constructor | main.c:326-333 | nothing is remembered at first |
| Watcher.Task.Raise | main.c:345-389 | the loop over the bits reports, once and in order, the new ones among the first seven |
| Watcher.Task.Sweep | main.c:335-395 | a round over any number of sockets reports, for the first ten, what is new against the last positive sample since the socket was last invalid, and remembers exactly that for the next round |
| Watcher.WatcherTask | main.c:326-399 | over all rounds, each one reports against the rounds before it |
| Watcher.RememberedIff | main.c:337-343 | a bit is set in that sample if and only if it has been seen set and only silent rounds came after |
| Watcher.ReportedIff | main.c:335-395 | a round reports a bit of a socket if and only if it finds it set and it is not remembered in that sense |
| Watcher.RaisedOrdered | main.c:345-346 | the reports about one socket increase strictly by bit, each of one of the first seven bits |
| Watcher.SweepOrdered | main.c:336-389 | the reports of a round increase strictly, by socket and then by bit, and each is of one of the first seven bits of a socket looked at |
| Watcher.OrderedDetermined | main.c:336-389 | reports in that order are determined by which reports they are, so none is given twice |
| Watcher.ReportsDetermined | main.c:336-389 | so a round's reports are the one sequence in that order that holds, for each socket looked at, the bits found set and not remembered |
| Echo.CopyTo | demos/server.c:169 | copies exactly the given characters and nothing beyond, within the buffer |
| Echo.DetectEof | demos/server.c:218-220 | for four characters and more, true exactly at a blank line's end; for fewer, it reads in front of its buffer |
| Echo.EofReadsIff | demos/server.c:218-220 | for every length a receive call delivers, the four characters compared lie in the buffer if and only if the length is at least four |
| Echo.Compose | demos/server.c:165-171 | the reply is "OK! " and the chunk, and fits its buffer for every chunk the other buffer can hold |
| Echo.ServerThread | demos/server.c:140-202 | the nested loops answer every chunk in front of the first end or error with one message, in order, and close if and only if there is one; a read goes astray if and only if one of these chunks has fewer than four characters |
| Echo.ShortHappens | demos/server.c:147-194 | such chunks are among those a receive call may deliver: every text of one, two or three characters |
| Decimal.DigitsVal | include/mbedtls/bignum.h:98-107 | the digits written denote the number |
| Decimal.DigitsFit | include/mbedtls/bignum.h:98-107 | a number has at most `k` digits if and only if it is below the `k`-th power of the radix |
| Decimal.BitsOfDigits | include/mbedtls/bignum.h:117 | 2^83 is below 10^25, the fact behind the constant 332 |
| Decimal.PowersCompare | include/mbedtls/bignum.h:116-118 | as many decimal digits as the macro reckons suffice for any number of bits |
| Decimal.RwBufferSuffices | include/mbedtls/bignum.h:98-118 | every number, in every radix from ten on, leaves sixteen characters of the buffer free, if and only if the size is for at least one bit |
| Decimal.RwBufferTight | include/mbedtls/bignum.h:116-118 | the largest number leaves, in decimal, at most `(8 * bits + 34093) / 34196` characters more than these sixteen: none up to 12 bits, at most two up to 8192 |
| MulHlp.Rows | src/mbedtls/bignum.c:1091-1124 | the loops of sixteen, eight and single limbs, with STOP and INIT between them, are one row |
| MulHlp.RowsHuit | src/mbedtls/bignum.c:1077-1090 | the loops of SSE2 blocks and single limbs are one row, for vectors that do not overlap the wrong way |
| MulHlp.Propagate | src/mbedtls/bignum.c:1126-1131 | the carry is added to the limb behind the row in any case and runs on; this stays in front of the end of the destination if and only if there is a limb and the sum fits, and the limbs keep the sum modulo their weight either way |
| MulHlp.MulHlp | src/mbedtls/bignum.c:1073-1132 | the destination becomes itself plus source times `b`, and nothing behind it is touched, if and only if there is a limb behind the row and that sum fits the destination |
| Bignum.Heap.Malloc | src/mbedtls/bignum.c:113-114 | any block that is not in use, or none; a refusal is counted |
| Bignum.Mpi.Grow | src/mbedtls/bignum.c:104-130 | the number keeps its limbs and gets zeros behind them, in a block that overlaps no other one in use; the block it leaves is wiped; on failure nothing changes; it fails if and only if more than 10000 limbs are wanted or a block has been refused |
| Bignum.Mpi.Clear | src/mbedtls/bignum.c:85-99 | the block is wiped and given back: every address of it holds zero; no other block changes |
| Bignum.Mpi.Copy | src/mbedtls/bignum.c:174-203 | takes over the value of another number, or of itself, in as many limbs as it has or as the used limbs of the other take, at least one; it fails if and only if these are more than 10000 or a block has been refused, and then the limbs stay |
| Bignum.Mpi.Lset | src/mbedtls/bignum.c:284-297 | takes over the value of a signed limb, with zeros in every other limb; it fails if and only if a block has been refused |
| Blocks.OtherStays | src/mbedtls/bignum.c:104-130 | a block in use, apart from the one that is replaced, stays in use and apart and keeps its limbs |
| MulMpi.NextRow | src/mbedtls/bignum.c:1159-1160 | the sum that each row computes is the product so far, and fits the limbs that are left |
| MulMpi.AddRow | src/mbedtls/bignum.c:1160 | one row extends the product by one limb of the second factor, and stays inside the block of the result |
| MulMpi.AddRows | src/mbedtls/bignum.c:1159-1160 | the rows, from the top limb down, turn zeros into the product of the limbs |
| MulMpi.Operand | src/mbedtls/bignum.c:1145-1146 | a factor that is the result itself is copied to a block of its own, and both other numbers stay; it fails if and only if a copy is needed and takes more than 10000 limbs or a block has been refused |
| MulMpi.Borrowed | src/mbedtls/bignum.c:1145-1166 | blocks taken for copies and given back leave no trace |
| MulMpi.MulMpi | src/mbedtls/bignum.c:1137-1169 | X becomes the signed product of A and B, whichever of the three are the same number, in as many limbs as it has or as the used limbs of both factors together; it fails if and only if these are more than 10000 or a block has been refused, and then X keeps its value; no other number changes, no block is lost, and nothing of a copy or of the old X is left in memory that is not in use |
| SubHlp.SubHlp | src/mbedtls/bignum.c:907-923 | the destination becomes itself minus the source, and the borrow stays inside it, if and only if the source is not greater |
| SubHlp.CmpAbs | src/mbedtls/bignum.c:776-801 | minus one, zero or one, as the first magnitude is less, equal or greater, whatever zeros stand in front |
| Montgomery.FirstGuess | src/mbedtls/bignum.c:1462-1466 | for every odd limb, the first approximation is its inverse in the four lowest bits |
| Montgomery.NewtonStep | src/mbedtls/bignum.c:1468-1469 | a step of the iteration doubles the number of bits that are right, in words that wrap |
| Montgomery.MontgInit | src/mbedtls/bignum.c:1460-1472 | for limbs of 8 to 64 bits and every odd one of them, the result is the negative inverse modulo the base |
| MontMul.RoundReady | src/mbedtls/bignum.c:1494-1498 | the second multiplier, computed from lowest limbs alone, makes the sum divisible by the base; the sum fits two limbs more than the modulus has |
| MontMul.NextRound | src/mbedtls/bignum.c:1489-1501 | every round keeps the equation `base^i * window = first i limbs of A * B + u * N` with `u < base^i`, and the window below `B + N` |
| MontMul.SubtractOrPretend | src/mbedtls/bignum.c:1505-1509 | either the modulus is subtracted from the result, or the result from the work space; neither borrow leaves its block |
| MontMul.MontMul | src/mbedtls/bignum.c:1477-1510 | `base^n` times the new A is A times B modulo N; it has as many limbs as N, and is below N if one of the factors was; A and B may be the same number; nothing else but the work space changes |
| Client.MessageFits | demos/client.c:29-81 | the message and its terminator fit the thirteen characters if and only if the count is at most 999999 |
| Client.MessageRoundTrip | demos/client.c:81 | the count can be read back from the message |
| Client.MessageFormat | demos/client.c:81 | the message is "msg ", spaces, the digits of the count without zeros in front, and " \n"; the digits end at the tenth column if and only if the count is at most 999999, and spaces are added only then |
| Client.Task.Compose | demos/client.c:81-113 | fills the whole buffer with the message and its terminator and counts on, starting again after 999999 |
| Client.ComposeMany | demos/client.c:78-115 | message number `i` carries `i` modulo a million |

## Left out

- The MSVC byte strings (`include/mbedtls/bn_mul.h:742-803`), and the single steps of SPARC, TriCore and AMD64, which
  repeat the arguments of the programs modelled here; the SPARC64 program is disabled in the source.
- Register save and restore, clobber lists and assembler syntax, among them the list of the MicroBlaze program, where a
  comma is missing (`include/mbedtls/bn_mul.h:524`).
- Addresses in bytes: pointers are limb indices (half-word indices for MicroBlaze), so their own wrap-around and
  alignment are not modelled.
- Division, exponentiation, addition and shifting of numbers, and reading and writing them, though
  `src/mbedtls/bignum.c` has them; and the wrappers around the products (`mpi_mul_int`, `mpi_montred`).
- MulHlp.MulHlp: the loop with the 68k block is not among the two modelled; with it every row needs X clear at each
  INIT, as `M68k.MulAddC` says.
- MontMul.MontMul: that the time does not depend on the last comparison is not modelled.
- The server built without a display, where the terminator is written at `msg[ret]` (`demos/server.c:184`).
- The contents of display messages, their type and time, and the switch on the type (`main.c:277-289`): `LcdQueue` knows
  buffers by number only.
- Failing memory allocation in the tasks: its result is not looked at, and what then happens is undefined.
- The text of watcher messages, and the branch that prints them instead; `Watcher` reports socket and bit. The limit
  `getSocketNbMax()` is taken once per round.
- Watcher.Task.Sweep: in an error, `socket_get_events` returns -1; that is a sample with all bits set, as in the code.
- Liveness: what can always still happen is proved, but that it does happen is up to the scheduler.
- Connecting and reconnecting of the client, and the results of its sends; the other demos (UDP, HTTP, TLS clients).
- Network, DHCP, TLS, audio, display, tracing, random numbers, the breathing LED and the FreeRTOS wrappers for locks.
