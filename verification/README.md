# Verified models of Speakeasy

Speakeasy emulates Windows programs. Under its API surface there are several small machines that must agree exactly with
a specification. This project models them in Dafny and proves that they do. `dafny verify dfyconfig.toml` checks all of
it.

The models follow one pattern. Functions on values give the meaning of a routine. Where the program works in place, a
class with the program's fields has a method for the routine, proved equal to the function. The theorems are about the
functions, so they also hold of the methods. Each routine has an independent meaning to be proved against: a prologue run
forward, a linear search, the exact value of a number, an unsplit stream, a recursion without a cache.

| file | what it models |
|---|---|
| `Bytes.dfy` | little-endian integers, guest memory as a byte map, arithmetic |
| `Unwind.dfy` | UNWIND_INFO and `virtual_unwind` on x64; the format is that of the "x64 exception handling" document of Microsoft |
| `Prologue.dfy` | function prologues run forward, and the theorems that unwinding undoes them |
| `FunctionTable.dfy` | tables of RUNTIME_FUNCTIONs: the paged reader, the lazy search, the bisecting lookup |
| `Seh64.dfy` | walks, the search phase and `unwind_to` on x64 call stacks |
| `CSpecificHandler.dfy` | `__C_specific_handler`: filters, then `__finally` blocks |
| `CFrames.dfy` | where walks, the search, `unwind_to` and `__C_specific_handler` meet: from an exception to the `__except` block that takes it |
| `Seh.dfy` | who is offered an exception, and when it is reported |
| `Seh32.dfy` | the x86 registration chain and the MSVC handlers |
| `MsvcChain.dfy` | where the registration chain and the MSVC handlers meet |
| `GuestCallbacks.dfy` | the stack of callback frames and the guest stack that handlers use |
| `CallConv.dfy` | arguments and returns of guest calls |
| `MemMgr.dfy` | the first-fit page allocator with shared blocks and reservations |
| `Relocation.dfy` | base relocation of images |
| `ApiStub.dfy`, `ApiImage.dfy` | the entry code and the export directory of synthetic modules |
| `ApiRegistry.dfy` | API tokens over registrations and removals |
| `Fp80.dfy` | binary64 to the 80-bit x87 format and back (section 3.4 of IEEE 754-2008), and the x87 stack |
| `GdbProtocol.dfy` | escaping, framing and the reader of the GDB Remote Serial Protocol |
| `GdbStop.dfy` | the stop state that the two threads of the GDB server share |
| `PebRings.dfy` | the three loader rings in guest memory |
| `StartTimer.dfy` | the thread that stops a start at its deadline |
| `StructLayout.dfy` | C struct layout over a cyclic type graph, with a cache |

Guest code is an oracle: a function gives what the n-th guest call does to memory and what it returns, and a theorem
holds for every such function that keeps the data structure that the theorem is about. Concurrent code is a state machine
whose steps are the sections under the lock; a run is any interleaving of the steps.

## What the proofs found

- A Ctrl-C can get lost (`GdbStop.InterruptCanGetLost`). The reader checks whether the target runs in one locked section
  and requests the stop in another. The interrupt is dropped, with no `?` queued, exactly when no stop is pending at the
  request and the last start or finish of a run since the check is a finish (`GdbStop.InterruptStops`).
- On x64 a `__finally` block can run twice (`CSpecificHandler.BlockRunsTwice`): every unwind starts a frame at scope 0, so
  a block that raised runs again when a later unwind comes through the frame at the same pc.
  `CSpecificHandler.RaisingBlockRunsAgain` is the exact condition. On x86 it cannot happen (`Seh32.NoBlockTwice`).
- The registration unwind on x86 reaches its target if and only if at most 4096 registrations are inside it
  (`Seh32.UnwindReachesTarget`). An RtlUnwind with a target further out stops part way, even if the handlers do nothing
  (`Seh32.LongUnwindStops`). An exception that is dispatched cannot get there: a dispatch offers it to at most 4096
  records, so the unwind to a frame that takes it always reaches the frame (`Seh32.DispatchReachesFrame`).
- NaN payloads do not survive the x87 stack: every NaN comes back as one quiet NaN, and exactly the other doubles and that
  NaN itself come back unchanged (`Fp80.RoundTripExactly`).
- On x64 a callee reads at most four double arguments, whatever count it asks for (`CallConv.DoublesArrive`).
- An error from `mem_map_reserve` at the address limit has already removed the reservation
  (`MemMgr.MemoryManager.MapReserve`).
- A packet can be accepted with a checksum field that the protocol does not allow: one digit with a sign or white space,
  which Python's `int(..., 16)` takes (`GdbProtocol.LooseChecksum`). `GdbProtocol.AcceptedFields` says which fields are
  accepted; a checksum of 16 or more needs its two digits.
- An unwind lookup can miss an entry that a linear search finds, if the table is not in address order
  (`FunctionTable.UnsortedDiffers`) or if its entries overlap. If no entry is empty, the two agree for every pc if and
  only if no entry reaches into a later one: the entries are disjoint and in address order
  (`FunctionTable.BisectAgreesExactly`).

## Model

| member | source | states |
|---|---|---|
| `Unwind.ReadEncodedInfo` | speakeasy/windows/unwind.py:159-170 | Decoding inverts encoding: for every flags, prolog, frame register and code list whose operands fit their slots, the bytes of an UNWIND_INFO in memory read back as the same info, with the trailer after an even number of slots. |
| `Unwind.DecodeLoop` | speakeasy/windows/unwind.py:159-170 | The loop over 16-bit slots yields the codes of the recursive decoder, operands across the end of the array included. |
| `Unwind.ReadInfo` | speakeasy/windows/unwind.py:159-170 | Reading an UNWIND_INFO gives the decoded info, or a fault exactly when the header or the code array is not readable. |
| `Unwind.Context64.Undo` | speakeasy/windows/unwind.py:228-249 | One unwind code in place does what the code means on values; a failed read changes nothing. |
| `Unwind.Context64.UndoAll` | speakeasy/windows/unwind.py:224-249 | The loop over the codes undoes exactly those at or before the prolog offset, in array order, up to the first fault. |
| `Unwind.Context64.UnwindLinks` | speakeasy/windows/unwind.py:222-262 | The loop over chained infos in place equals the recursive chain, with its limit and both errors. |
| `Unwind.Context64.UnwindFrame` | speakeasy/windows/unwind.py:204-262 | virtual_unwind in place gives the context and the result of the functional unwind, also the context of an unwind that failed on the way. |
| `Unwind.Context64.Leaf` | speakeasy/windows/unwind.py:265-268 | A leaf unwind pops the return address, or changes nothing when it cannot be read. |
| `Prologue.UndoStep` | speakeasy/windows/unwind.py:228-249 | Each code inverts its instruction: after the last step that ran is undone, the frame is as it was before that step, for pushes, both allocation sizes, the frame register, and near and far register saves. |
| `Prologue.UndoSteps` | speakeasy/windows/unwind.py:224-249 | The codes of one info, cut anywhere, undo exactly the steps that ran. |
| `Prologue.UndoInfo` | speakeasy/windows/unwind.py:224-249 | An info at a function entry after an interrupt also recovers rip and rsp from the machine frame, with or without an error code. |
| `Prologue.UndoChain` | speakeasy/windows/unwind.py:222-255 | A fragment unwinds as its own codes followed by the codes of each info up to its primary function. |
| `Prologue.RunsToFinish` | speakeasy/windows/unwind.py:222-262 | The unwinder follows a chain within the limit to the handler and the return address of its last info. |
| `Prologue.HeadFrame` | speakeasy/windows/unwind.py:190-201 | The establisher frame is the base of the saves that ran, and in the body it is rsp after the fixed part of the prologue, whether or not the frame register was set yet. |
| `Prologue.VirtualUnwindRecovers` | speakeasy/windows/unwind.py:204-262 | From any cut point in a well-formed prologue and any state the body can reach, one virtual_unwind recovers the caller's rip, rsp and every nonvolatile register, reports the handler of the primary function, and in the body the establisher frame. |
| `Prologue.PrologueRoundTrip` | speakeasy/windows/unwind.py:159-262 | End to end: run any prefix of a prologue forward (or all of it and any body that keeps its frame), put the encoded unwind data in memory, unwind, and the caller's registers are back. |
| `Prologue.ExecRuns` | speakeasy/windows/unwind.py:204-262 | What running a prologue prefix forward does to registers and stack, field by field: the meaning that unwinding is proved against. |
| `Prologue.LongChainFails` | speakeasy/windows/unwind.py:222-255 | A chain with more infos than the limit fails, whatever its codes do. |
| `Prologue.TooLongMeansLong` | speakeasy/windows/unwind.py:222-255 | The error for a chain that is too long is reported only when the chain has more infos than the limit. |
| `Prologue.ChainLimit` | speakeasy/windows/unwind.py:204-262 | virtual_unwind refuses every chain of more than 32 infos, and its chain error means exactly such a chain. |
| `FunctionTable.ReadFunctionTable` | speakeasy/windows/unwind.py:92-101 | The page-at-a-time reader yields the rows of one whole read for every count; on a fault it has yielded exactly the rows of the readable pages before it. |
| `FunctionTable.SearchFunctionTable` | speakeasy/windows/unwind.py:104-109 | The lazy search returns the first row that contains the pc, and faults only if no row on an earlier page contains it. |
| `FunctionTable.BisectFinds` | speakeasy/windows/unwind.py:123-130 | On a table in address order with disjoint entries, the row that the bisection picks is the row that a linear search finds. |
| `FunctionTable.BisectAgreesExactly` | speakeasy/windows/unwind.py:123-130 | On a table without empty entries, in any order, and on any table in address order, bisection and linear search agree for every pc if and only if no entry reaches into a later one; without empty entries this forces the address order. |
| `FunctionTable.UnsortedDiffers` | speakeasy/windows/unwind.py:123-130 | A table of two rows that are not in address order, on which bisection misses the row that a linear search finds. |
| `FunctionTable.EntryOfRow` | speakeasy/windows/unwind.py:124-127 | Reading one entry again at its address gives the row that the whole table gave. |
| `FunctionTable.LookupFunctionEntry` | speakeasy/windows/unwind.py:112-131 | On every table the loop and the bisection give what the bisecting function gives; on a sorted table of disjoint entries that is the result of a linear search, indirect entries and read errors included. |
| `Seh64.StepOnFunction` | speakeasy/windows/seh64.py:73-97 | One step of the walk on a function with unwind data yields its frame and moves to its caller. |
| `Seh64.WalkFramesExact` | speakeasy/windows/seh64.py:73-97 | On a call stack of any depth up to the limit, built from prologues cut anywhere, leaf functions and callback returns, the walk yields exactly the frames with unwind data, innermost first. |
| `Seh64.UnwindToExact` | speakeasy/windows/seh64.py:160-187 | RtlUnwindEx calls each termination handler up to the target once, innermost first, each with the flags, the frame, the dispatcher context and the context record of its frame (the target flag only at the target, if the record did not have it), then resumes with the target frame's registers except rip and rax; without the target in the stack it fails after all handlers. |
| `Seh64.UnwindToFollows` | speakeasy/windows/seh64.py:160-187 | Each handler gets the memory that the handler before it left. |
| `Seh64.SearchExact` | speakeasy/windows/seh64.py:138-157 | The search phase calls the frame handlers in order up to the first that continues execution, and all of them if none does. |
| `Seh64.FindEntry` | speakeasy/windows/seh64.py:56-70 | The lookup searches the image at the pc by bisection, then the first added table that covers the pc, and skips callback tables. |
| `Seh64.StepInPlace` | speakeasy/windows/seh64.py:73-97 | A step of the walk in place on one context, with the bisecting lookup, equals the step on values. |
| `Seh64.UnwindInPlace` | speakeasy/windows/seh64.py:160-187 | The generator's loop, which unwinds one context in place and keeps the flags of one record, makes the calls with their arguments and reaches the result of the functional unwind. |
| `CSpecificHandler.Search` | speakeasy/windows/seh64.py:203-216 | The search phase picks the first scope that covers the pc whose filter accepts, with every earlier covering filter at zero. |
| `CSpecificHandler.FinallysExact` | speakeasy/windows/seh64.py:218-229 | The unwind runs exactly the `__finally` scopes that cover the pc and do not contain the target, each once, in order; in frames other than the target it runs every covering one. |
| `CSpecificHandler.TwoPhases` | speakeasy/windows/seh64.py:203-229 | Where the phases meet: the unwind to the `__except` block that the search chose runs every `__finally` inside its scope, and of the others exactly those that the block is outside of. |
| `CSpecificHandler.FinallysResume` | speakeasy/windows/seh64.py:218-229 | A handler that is called with the saved scope index runs exactly the rest of the blocks. |
| `CSpecificHandler.RaisingBlockRunsAgain` | speakeasy/windows/seh64.py:100-114 | Each unwind starts at scope 0 of a frame: a `__finally` block that raised in one unwind runs again in a later unwind at the same pc, unless and only unless that unwind goes to a target in the frame that the block contains. |
| `CSpecificHandler.BlockRunsTwice` | speakeasy/windows/seh64.py:100-114 | A frame whose only `__finally` block runs in two unwinds. |
| `CSpecificHandler.DispatcherContext.NextFinally` | speakeasy/windows/seh64.py:218-229 | The scope index is saved past a block before its call; the blocks still to come are the rest of the list. |
| `CSpecificHandler.DispatcherContext.SearchScopes` | speakeasy/windows/seh64.py:203-216 | The loop over the scope table reaches the verdict of the search. |
| `CFrames.CallsRunBlocks` | speakeasy/windows/seh64.py:175-229 | The handler calls of an unwind, each reading its scope table from memory, run the blocks of their frames. |
| `CFrames.UnwindRunsBlocks` | speakeasy/windows/seh64.py:160-229 | On a stack of any depth, RtlUnwindEx runs the `__finally` blocks of each frame up to the target, frame after frame, innermost first; the target rule applies in the target frame alone. |
| `CFrames.SearchStackExact` | speakeasy/windows/seh64.py:138-157 | On a stack of any depth, the search asks the handlers frame after frame up to the first that decides, and each `__C_specific_handler` decides by the filters of its scope table. |
| `CFrames.TookFrame` | speakeasy/windows/seh64.py:138-216 | If the search ends with a frame that takes the exception, the handlers that it called are those of the frames up to that one, all inner ones let it go on, and the taker has an accepting scope that is the first to decide. |
| `CFrames.SearchTakes` | speakeasy/windows/seh64.py:138-216 | The search over a stack in memory finds such a frame, and the blocks that an unwind to its `__except` block must run are those inside the scope and no `__finally` that holds the block. |
| `CFrames.ExceptReachesBlock` | speakeasy/windows/seh64.py:160-229 | From the chosen scope of a frame to its block: the unwind runs every `__finally` that covers the pc in the frames inside it, then those inside the scope and no `__finally` that holds the `__except` block, and resumes in that block with the frame's registers. |
| `CFrames.ExceptionReachesBlock` | speakeasy/windows/seh64.py:138-229 | From an exception to the block that takes it: whenever the search over the stack ends with a frame that takes the exception, it called the handlers of exactly the frames up to that one, and the unwind that this handler starts, from the guest call of the dispatch, runs the `__finally` blocks that the exception leaves, frame after frame, and resumes in the `__except` block with the frame's registers. |
| `Seh.AsLong` | speakeasy/windows/seh.py:63-65 | A guest return value as a signed 32-bit LONG: congruent modulo 2^32, in range. |
| `Seh.CandidatesAre` | speakeasy/windows/seh.py:125-161 | The order of the offers: vectored handlers, then frames, then the top-level filter. |
| `Seh.FirstTakerIsFirst` | speakeasy/windows/seh.py:125-161 | Of the vectored handlers, the frames and the top-level filter, the first that takes the exception is chosen. |
| `Seh.Dispatch.Offer` | speakeasy/windows/seh.py:116-123 | The exception is reported for the first handler that is offered it, and never again. |
| `Seh.Dispatch.Run` | speakeasy/windows/seh.py:125-161 | Dispatch offers the exception to vectored handlers, frames and the top-level filter in that order, stops at the first that takes it, reports it once, and fails to resume a noncontinuable exception. |
| `Seh32.UnwindRegistrationsExact` | speakeasy/windows/seh32.py:141-158 | The registration unwind calls the handler of each record before its stop once, in order, each with fs:[0] still at its own record, and leaves fs:[0] at the stop. |
| `Seh32.StopsAtTarget` | speakeasy/windows/seh32.py:141-158 | On an address-ordered chain, an unwind to a record of the chain stops at that record. |
| `Seh32.UnwindReachesTarget` | speakeasy/windows/seh32.py:141-170 | After the unwind to a registration of an address-ordered chain, fs:[0] is the target if and only if at most 4096 records are inside it, and then each was called once. |
| `Seh32.LongUnwindStops` | speakeasy/windows/seh32.py:141-158 | For every number of records above 4096 there is a chain with handlers that do nothing, on which the unwind to a record with that many inside it stops at record 4096. |
| `Seh32.UnwindAll` | speakeasy/windows/seh32.py:161-170 | An unwind without a target calls every handler once and leaves fs:[0] at the end of the chain. |
| `Seh32.DispatchOffers` | speakeasy/windows/seh32.py:126-138 | A dispatch offers the exception to the records of the chain in order, from the head, each once, at most 4096, up to the first that takes it. |
| `Seh32.LevelsDistinct` | speakeasy/windows/seh32.py:199-207 | The try levels on the way to the outside are pairwise distinct. |
| `Seh32.LocalUnwindExact` | speakeasy/windows/seh32.py:199-207 | Leaving scopes runs exactly their `__finally` blocks, innermost first; the memory that each call gets has the try level already lowered past its block. |
| `Seh32.LocalUnwindWrites` | speakeasy/windows/seh32.py:199-207 | Guest call c gets the state of block c, and between the guest calls the unwind writes nothing but the try level of the frame. |
| `Seh32.LocalUnwindPlaces` | speakeasy/windows/seh32.py:199-207 | With any stop level and limit, the blocks that an unwind calls are of scopes further and further out, each called after the try level was lowered past it. |
| `Seh32.NoBlockTwice` | speakeasy/windows/seh32.py:199-207 | If guest call c of an unwind never returns, then any later unwind of the frame, with any guest, stop level and limit, from any state that kept the try level which the call found, runs none of the blocks that the first one called; no block runs twice in either. |
| `Seh32.CutUnwindCompletes` | speakeasy/windows/seh32.py:199-207 | Nor is a block lost: if the later unwind goes to the stop of the first, the two together call exactly the blocks of an unwind without the interruption, in order. |
| `Seh32.HandlerTakesException` | speakeasy/windows/seh32.py:210-238 | When the filter at a level accepts, in any call of the handler: the registrations inside the frame are unwound once each, the `__finally` blocks from the current level up to but excluding it run once, innermost first, the try level is outside the scope, and its block resumes with the frame's ebp and saved esp; fs:[0] is the frame if and only if at most 4096 registrations are inside it. |
| `Seh32.DispatchReachesFrame` | speakeasy/windows/seh32.py:126-238 | A frame that takes an exception of a dispatch is one of the first 4096 records: its unwind always reaches it, and its block runs with fs:[0] at the frame, however long the chain is. |
| `Seh32.HandlerUnwinds` | speakeasy/windows/seh32.py:210-238 | An unwind through the frame runs every `__finally` block from the current scope out. |
| `Seh32.Thread.Dispatch` | speakeasy/windows/seh32.py:126-138 | The loop over the chain of a dispatch equals the dispatch on values. |
| `Seh32.Thread.Unwind` | speakeasy/windows/seh32.py:141-158 | The loop that rewrites fs:[0] between guest calls equals the unwind on values. |
| `Seh32.Thread.LeaveScopes` | speakeasy/windows/seh32.py:199-207 | The loop that rewrites the try level between guest calls equals the unwind on values. |
| `MsvcChain.UnwindRunsFrames` | speakeasy/windows/seh32.py:141-217 | An unwind of the chain runs the `__finally` blocks of each MSVC frame that it leaves, frame after frame, innermost first, and leaves the other frames at their scopes. |
| `MsvcChain.ExceptRunsFrames` | speakeasy/windows/seh32.py:141-238 | When a scope of a frame takes an exception, the `__finally` blocks of all MSVC frames inside it run, frame after frame, then those of the frame itself up to but excluding the scope, and the `__except` block runs with fs:[0] at the frame. |
| `GuestCallbacks.DropAbandonedExact` | speakeasy/windows/guest_callbacks.py:188-197 | On frames with strictly decreasing stack pointers, the frames dropped are exactly those at or below the stack pointer. |
| `GuestCallbacks.PopNestedFinds` | speakeasy/windows/winemu.py:3198-3211 | The handler that goes on after a guest call is frame k if and only if the stack pointer is above every frame inside it and not above it (or it is the last). |
| `GuestCallbacks.RemoveTakesTop` | speakeasy/windows/guest_callbacks.py:170-179 | Removing the finished frame by value removes that very frame. |
| `GuestCallbacks.NearestIsInnermost` | speakeasy/windows/guest_callbacks.py:229-240 | The frame that an unwind continues in is the innermost one not below the stack pointer. |
| `GuestCallbacks.AllocaKeepsFrame` | speakeasy/windows/guest_callbacks.py:206-212 | A new block keeps every block of the frame 16-byte aligned, in the scratch area, and apart from the others. |
| `GuestCallbacks.CallAligned` | speakeasy/windows/winemu.py:3182-3196 | A guest call on x64 enters with rsp + 8 a multiple of 16, for every number of arguments. |
| `GuestCallbacks.CallKeepsScratch` | speakeasy/windows/winemu.py:3182-3196 | The arguments and the return address of a guest call leave every byte at or above the frame's scratch area alone. |
| `GuestCallbacks.StepKeepsValid` | speakeasy/windows/guest_callbacks.py:115-212 | Each fault dispatch, API entry, alloca, guest return, finish and transfer keeps the frames strictly decreasing and their blocks aligned and apart. |
| `GuestCallbacks.RunKeepsValid` | speakeasy/windows/guest_callbacks.py:115-212 | Over every sequence of such events the frames stay strictly decreasing and the blocks of a frame aligned and pairwise disjoint. |
| `GuestCallbacks.RunKeepsNested` | speakeasy/windows/guest_callbacks.py:115-212 | If each interrupted guest is below the data of its handler, each frame stays below the scratch area of the frame outside it. |
| `GuestCallbacks.BlocksApart` | speakeasy/windows/guest_callbacks.py:206-212 | Blocks of different frames do not overlap. |
| `GuestCallbacks.BlocksKept` | speakeasy/windows/guest_callbacks.py:206-212 | Neither a new block nor a guest call changes a byte of any block of any frame, and the new block holds its data. |
| `GuestCallbacks.FaultSavesContext` | speakeasy/windows/seh.py:164-199 | After the start of a fault handler its frame leads to the interrupted context, which is intact in a block of the frame; a failed dispatch only drops the abandoned frames. |
| `GuestCallbacks.CallbackStack.DropFrames` | speakeasy/windows/guest_callbacks.py:188-197 | The loop that pops abandoned frames. |
| `GuestCallbacks.CallbackStack.DispatchFault` | speakeasy/windows/seh.py:164-199 | Dispatching a CPU exception clears the trap flag, drops the abandoned frames, pushes a frame at the guest's stack pointer with the interrupted context and the exception record in its blocks, and takes the frame back if the dispatch fails. |
| `GuestCallbacks.CallbackStack.StartApi` | speakeasy/windows/guest_callbacks.py:78-86 | An API handler that starts guest calls pushes its frame. |
| `GuestCallbacks.CallbackStack.AllocaBytes` | speakeasy/windows/guest_callbacks.py:206-212 | alloca puts the data in a new aligned block and returns its address. |
| `GuestCallbacks.CallbackStack.ContinueCallback` | speakeasy/windows/winemu.py:3198-3211 | Popping the nested frames leaves the handler that goes on at the top. |
| `MemMgr.FindFit` | speakeasy/memmgr.py:271-317 | The search returns the least page-aligned base at or after its start whose whole range misses every taken page. |
| `MemMgr.MemoryManager.GetValidRanges` | speakeasy/memmgr.py:271-317 | The base is the least page-aligned one at or after the page of the address that misses every mapped and reserved page; the error is exactly a range that starts below the limit and would cross it. |
| `MemMgr.AddPagesKeeps` | speakeasy/memmgr.py:161-171 | A page mapping on free pages keeps the invariant. |
| `MemMgr.AddSharedKeeps` | speakeasy/memmgr.py:139-159 | A small allocation in the current shared block keeps the invariant. |
| `MemMgr.NewSharedKeeps` | speakeasy/memmgr.py:144-159 | Opening a new shared block for a small allocation keeps the invariant. |
| `MemMgr.FreeKeeps` | speakeasy/memmgr.py:173-191 | Freeing any address, in or out of an allocation, keeps the invariant. |
| `MemMgr.UnmapsFreeBlocks` | speakeasy/memmgr.py:173-191 | A page is unmapped by a free only if every allocation of its block is free. |
| `MemMgr.TakeReserveKeeps` | speakeasy/memmgr.py:258-265 | Taking a reservation back keeps the invariant and leaves its pages free. |
| `MemMgr.MapReserveExact` | speakeasy/memmgr.py:258-265 | The first fit for a reservation that was taken back is its own base. |
| `MemMgr.StepKeeps` | speakeasy/memmgr.py:93-265 | Each operation keeps: allocations disjoint, blocks equal or apart, mapped pages exactly the union of the listed blocks, reservations disjoint from them, the shared block mapped. |
| `MemMgr.EveryRun` | speakeasy/memmgr.py:93-265 | After every run of map, free, reserve, unreserve, map-reserve and base changes: live allocations are pairwise disjoint, the engine's pages are exactly those of the listed blocks, and the current shared block is mapped. |
| `MemMgr.MemoryManager.MapMemory` | speakeasy/memmgr.py:115-171 | mem_map on fields: which path is taken, where the allocation lies, the whole new state, and the failing case with the state unchanged. |
| `MemMgr.MemoryManager.FreeMemory` | speakeasy/memmgr.py:173-191 | mem_free on fields equals the operation on values. |
| `MemMgr.MemoryManager.ReserveMemory` | speakeasy/memmgr.py:239-248 | An automatic reservation is the first fit; an explicit one is recorded as it is, and keeps the invariant if it is page aligned and free. |
| `MemMgr.MemoryManager.UnreserveMemory` | speakeasy/memmgr.py:250-252 | Removing a reservation keeps the invariant. |
| `MemMgr.MemoryManager.AllocationsFrom` | speakeasy/memmgr.py:93-104 | Changing the allocation base closes the shared block and keeps the invariant. |
| `MemMgr.MemoryManager.MapReserve` | speakeasy/memmgr.py:258-265 | mem_map_reserve(b) maps exactly b, or fails exactly when the range crosses the limit; it then has lost the reservation. |
| `Relocation.OwnerIsNearest` | speakeasy/windows/loaders.py:189-201 | The region of a relocation is the one with the greatest start at or before it. |
| `Relocation.PositionOwns` | speakeasy/windows/loaders.py:189-201 | Bisecting the sorted region starts finds that region, equal starts included. |
| `Relocation.PatchCellExact` | speakeasy/windows/loaders.py:202-205 | One relocation grows the buffer to hold its cell, adds the delta modulo 2^32 or 2^64, and changes no other byte. |
| `Relocation.CellMoved` | speakeasy/windows/loaders.py:188-207 | Every relocation cell of a relocated image changes by the delta modulo its width. |
| `Relocation.RelocateExact` | speakeasy/windows/loaders.py:160-224 | A relocated image has each cell shifted modulo its width, the new base in the ImageBase field, every other byte unchanged, and each region moved to the new base. |
| `Relocation.PathIndependent` | speakeasy/windows/loaders.py:160-224 | With disjoint cells clear of the header fields, relocating to b and then to c equals relocating straight to c, up to trailing zeros, with the same errors. |
| `Relocation.RelocateImage` | speakeasy/windows/loaders.py:171-224 | The loop over copied buffers, with sorted starts and bisection, computes the relocated image and reports the first error of the table. |
| `ApiStub.StubReachesToken` | speakeasy/windows/api_image.py:34-39 | Executing the entry code reaches the token modulo the address width, and leaves every register, the flags, and all memory at and above the stack pointer unchanged. |
| `ApiImage.SortedInOrder` | speakeasy/windows/api_image.py:77-77 | The exports are sorted with the named ones first, in byte order. |
| `ApiImage.OrdinalsLeastFree` | speakeasy/windows/api_image.py:79-89 | An export without an ordinal gets the least positive ordinal that no explicit ordinal and no earlier export has; an explicit ordinal is kept. |
| `ApiImage.TargetsExact` | speakeasy/windows/api_image.py:94-99 | Exports with one ordinal agree on kind and forwarder; the table has exactly the ordinals of the exports. |
| `ApiImage.ForwarderIff` | speakeasy/windows/loaders.py:656-667 | An address in the image is inside the export directory range, the loader's test, if and only if the export is a forwarder; functions lie in .text and data in .data. |
| `ApiImage.SlotsApart` | speakeasy/windows/api_image.py:129-141 | The slots of two functions are at least 32 bytes apart. |
| `ApiImage.EatHeld` | speakeasy/windows/api_image.py:127-161 | Entry i of the address table in memory is the address of ordinal base + i, and zero in the gaps. |
| `ApiImage.ForwarderHeld` | speakeasy/windows/api_image.py:111-119 | The address of a forwarder leads to its string. |
| `ApiImage.NameHeld` | speakeasy/windows/api_image.py:117-164 | Each name pointer leads to its name. |
| `ApiImage.LookupExact` | speakeasy/windows/api_image.py:77-165 | The directory is a correct index: for every name, binary search by name, then the ordinal table, then the address table finds what a linear scan over the exports finds, and nothing for other names. |
| `ApiImage.BuiltIndexIsCorrect` | speakeasy/windows/api_image.py:55-165 | The same from the arguments: for every export list with unique names that builds, lookup in the built image agrees with a scan of the exports. |
| `ApiImage.AssignOrdinals` | speakeasy/windows/api_image.py:79-89 | The assignment loop with its moving candidate computes those ordinals. |
| `ApiImage.FillAddresses` | speakeasy/windows/api_image.py:127-139 | The loop over the ordinals with its two counters computes the address table. |
| `ApiImage.BuildApiImage` | speakeasy/windows/api_image.py:55-165 | Building checks the names, the table sizes, conflicts and the address space in the order of the source, and returns the directory bytes of the layout. |
| `ApiRegistry.StepKeeps` | speakeasy/windows/api_registry.py:77-178 | Each registration, removal and dynamic export, also one that fails half way, keeps the registry consistent with the modules that are loaded then. |
| `ApiRegistry.RunKeeps` | speakeasy/windows/api_registry.py:77-178 | The same over every run in which the modules that are loaded at one time are apart; a module may be loaded where a removed one was. |
| `ApiRegistry.AddressReused` | speakeasy/windows/api_registry.py:90-130 | Such a run can load a module at the address of one that was removed. |
| `ApiRegistry.TokensNeverShared` | speakeasy/windows/api_registry.py:77-178 | Over every run of calls with any modules, wherever they are loaded and also where removed ones were, two entries that were ever made have different tokens, an entry keeps its token, and all tokens lie in the reservation below 4 GiB: none is shared or used again after a removal. |
| `ApiRegistry.CallReachesEntry` | speakeasy/windows/api_registry.py:109-178 | After every run in which the modules that are loaded at one time are apart, the code in memory at each export that is left and has a token reaches its token, and the token leads back to that export. |
| `ApiRegistry.Registry.TakeToken` | speakeasy/windows/api_registry.py:77-88 | Allocating a token reserves the range at the first use, and fails without a change when the range does not fit or is used up. |
| `ApiRegistry.Registry.RegisterModule` | speakeasy/windows/api_registry.py:109-130 | The registration loop equals the fold over the exports, and stops at the first error with what it registered before. |
| `ApiRegistry.Registry.UnregisterModule` | speakeasy/windows/api_registry.py:90-100 | Removing a module removes exactly its entries, their tokens from the dispatch table, and its names, ordinals and dynamic slots. |
| `ApiRegistry.Registry.DynamicExport` | speakeasy/windows/api_registry.py:138-178 | A dynamic export returns the existing entry or makes one in the next slot, or fails as the source does; afterwards the reference resolves. |
| `ApiRegistry.Registry.Symbol` | speakeasy/windows/api_registry.py:180-194 | A name for an address is that of the entry there, or of the nearest entry before it if its code reaches that far. |
| `Fp80.RoundTrip` | speakeasy/binemu.py:43-80 | Every binary64 pattern that is not a NaN, with signed zeros, subnormals and infinities, comes back from the 80-bit register bit for bit. |
| `Fp80.NaNsCollapse` | speakeasy/binemu.py:63-80 | Every NaN comes back as the one quiet NaN. |
| `Fp80.RoundTripExactly` | speakeasy/binemu.py:43-80 | A double comes back if and only if it is not a NaN or is that quiet NaN. |
| `Fp80.SameValue` | speakeasy/binemu.py:43-60 | The register has the sign and exactly the value of the double. |
| `Fp80.PopAllPushAll` | speakeasy/binemu.py:469-484 | Pushing up to eight doubles and popping as many returns them in reverse order, restores the status word, and changes only the registers used. |
| `Fp80.FpuStack.PushDouble` | speakeasy/binemu.py:469-475 | The push on the registers equals the push on values. |
| `Fp80.FpuStack.PopDouble` | speakeasy/binemu.py:477-484 | The pop on the registers equals the pop on values. |
| `CallConv.ArgumentsArrive` | speakeasy/binemu.py:325-426 | For every argument count and convention, the callee reads exactly the arguments that the caller set, and the return address is on top of the stack; without home space on x64, if they fit in registers. |
| `CallConv.DoublesArrive` | speakeasy/binemu.py:378-400 | The doubles that a guest passes, on the stack on x86 and in registers on x64, are what the callee reads, if and only if there are at most four on x64. |
| `CallConv.CallFrame` | speakeasy/binemu.py:325-376 | Setting up a call writes nothing at or above the stack address and nothing below the new stack pointer. |
| `CallConv.ReturnBalances` | speakeasy/binemu.py:428-467 | After the return the stack pointer is where the convention leaves it; without a return address the pc and the return slot stay. |
| `CallConv.ResultArrives` | speakeasy/binemu.py:428-467 | A return value goes to ax, or for doubles to XMM0 on x64 or the top of the x87 stack on x86, where popping it gives it back and restores the status word; nothing else changes. |
| `CallConv.Processor.SetArgs` | speakeasy/binemu.py:325-376 | The steps that write registers and memory equal the call on values. |
| `CallConv.Processor.Return` | speakeasy/binemu.py:428-467 | The steps of a return, with or without address and value, equal the return on values. |
| `GdbProtocol.UnescapeEscape` | speakeasy/gdb.py:33-53 | Unescaping undoes escaping for every payload. |
| `GdbProtocol.EscapeClean` | speakeasy/gdb.py:33-40 | An escaped payload has no byte that starts or ends a packet and does not end in the middle of an escape. |
| `GdbProtocol.EscapeLoop` | speakeasy/gdb.py:33-40 | The escaping loop. |
| `GdbProtocol.UnescapeLoop` | speakeasy/gdb.py:43-53 | The unescaping loop, with a last brace kept as it is. |
| `GdbProtocol.FrameRoundTrip` | speakeasy/gdb.py:29-30 | A payload that is escaped and framed comes out again before anything that follows it, valid if and only if it fits in a packet. |
| `GdbProtocol.AcceptedFields` | speakeasy/gdb.py:199-205 | The checksum fields that are accepted are exactly two hexadecimal digits of the checksum, or one digit of a checksum below 16 with a sign or white space; so a checksum of 16 or more forces the field of the protocol. |
| `GdbProtocol.LooseChecksum` | speakeasy/gdb.py:199-205 | A packet that is accepted with a space and one digit as its checksum. |
| `GdbProtocol.DrainConcat` | speakeasy/gdb.py:209-252 | Reading a stream in two steps is reading it in one. |
| `GdbProtocol.SplitIndependent` | speakeasy/gdb.py:209-252 | The commands and interrupts do not depend on how the stream is split into receives, as long as no boundary leaves more than a packet unread. |
| `GdbProtocol.ReaderExact` | speakeasy/gdb.py:209-252 | For every stream of frames within the limit, interleaved with acks, interrupts and noise, in every split: exactly the events of the items, in order, and the connection stays open. |
| `GdbProtocol.Reader.ExtractPacket` | speakeasy/gdb.py:193-207 | Extraction deletes exactly the packet from the buffer. |
| `GdbProtocol.Reader.Receive` | speakeasy/gdb.py:209-252 | One receive processes everything that can be read and keeps the rest. |
| `GdbStop.StepKeeps` | speakeasy/gdb.py:270-340 | Each step of either thread keeps: a pending stop is the first one requested while running. |
| `GdbStop.PendingStays` | speakeasy/gdb.py:329-340 | No step outside the command loop overwrites a pending stop. |
| `GdbStop.FirstStopIsReturned` | speakeasy/gdb.py:306-340 | In every interleaving, the first stop requested while running is the reason that the next finish_run returns. |
| `GdbStop.BeginRefuses` | speakeasy/gdb.py:306-316 | In every interleaving, begin_run refuses to start exactly while a stop is pending. |
| `GdbStop.WorkFollows` | speakeasy/gdb.py:306-361 | Whether the target runs is decided by the last start or finish in the interleaving. |
| `GdbStop.InterruptStops` | speakeasy/gdb.py:329-361 | Over every interleaving, for an interrupt whose check saw the target running: if a stop is pending at the request, the next finish_run returns that one; else if the last start or finish since the check is a start (or there is none), it returns the interrupt; else the request changes nothing and no `?` is queued. |
| `GdbStop.InterruptCanGetLost` | speakeasy/gdb.py:355-361 | An interleaving in which an interrupt neither stops the target nor queues a `?` command. |
| `GdbStop.StopState.Begin` | speakeasy/gdb.py:306-316 | The section of begin_run under the lock. |
| `GdbStop.StopState.Finish` | speakeasy/gdb.py:318-327 | The section of finish_run under the lock. |
| `GdbStop.StopState.RequestStopReason` | speakeasy/gdb.py:329-340 | The section of _request_stop under the lock. |
| `GdbStop.StopState.StartLoop` | speakeasy/gdb.py:278-280 | The section of command_loop under the lock. |
| `PebRings.RingHolds` | speakeasy/windows/objman.py:573-606 | Each loader list in guest memory is a ring: Flink leads from the head through the listed entries and back, Blink is its inverse, and no node is there twice. |
| `PebRings.WalkVisitsAll` | speakeasy/windows/objman.py:573-606 | Following Flink from the head visits the attached modules in load order once and returns to the head. |
| `PebRings.MainIsAlone` | speakeasy/windows/objman.py:589-592 | Only the main executable is missing from the initialization order ring, and it is linked to itself. |
| `PebRings.Process.Sync` | speakeasy/windows/objman.py:573-606 | The loops that set the links and write them back make the three rings in memory, for every list of disjoint entries. |
| `PebRings.Process.AddModule` | speakeasy/windows/objman.py:534-562 | Adding a module appends it in load order (or changes nothing if its base is there), and keeps the rings. |
| `PebRings.Process.RemoveModule` | speakeasy/windows/objman.py:564-571 | Removing a module keeps the order of the others, and keeps the rings. |
| `StartTimer.ArmedHasWorker` | speakeasy/engines/start_timer.py:37-63 | In every interleaving an armed timer has a live worker, which sleeps no longer than to the deadline, or STOP_REPEAT after it: no wake-up is lost, also when an arm races with the end of an idle wait. |
| `StartTimer.NoStopUntilNextDeadline` | speakeasy/engines/start_timer.py:37-63 | Once disarm has returned, stop is called only after the deadline of a later arm, and that arm is the last call on the timer. |
| `StartTimer.Timer.ArmTimer` | speakeasy/engines/start_timer.py:37-44 | The section of arm under the lock. |
| `StartTimer.Timer.DisarmTimer` | speakeasy/engines/start_timer.py:46-48 | The section of disarm under the lock. |
| `StartTimer.Timer.RunWorker` | speakeasy/engines/start_timer.py:50-63 | The worker's loop from one wait to the next: whether it calls stop, and how long it waits or whether it exits. |
| `StructLayout.LayoutMono` | scripts/gen_win32_signatures.py:183-211 | A layout that succeeds inside some records is the same inside fewer. |
| `StructLayout.LayoutAnywhere` | scripts/gen_win32_signatures.py:183-211 | A layout that succeeds somewhere is the same inside every chain of records that leads to it, which makes caching sound. |
| `StructLayout.SelfContaining` | scripts/gen_win32_signatures.py:183-211 | A record that contains itself at any depth has no layout, and finding that out terminates on every graph without typedef cycles. |
| `StructLayout.RecursiveMeansCycle` | scripts/gen_win32_signatures.py:183-211 | The error for a recursive record is exact: there is a chain of records from the root that meets one twice. |
| `StructLayout.PlacedIsGood` | scripts/gen_win32_signatures.py:192-208 | Fields lie at the least multiple of their packed alignment after the field before them (at 0 in a union), apart and inside the record; the size is the least multiple of the alignment that fits. |
| `StructLayout.EveryDepth` | scripts/gen_win32_signatures.py:183-257 | If a record has a layout, every record embedded in it at any depth has such a layout of its own. |
| `StructLayout.TypeResolver.LayoutStruct` | scripts/gen_win32_signatures.py:183-211 | With the caches, in every call order, the result is that of the recursion without a cache, errors included. |
| `StructLayout.TypeResolver.LayoutField` | scripts/gen_win32_signatures.py:218-257 | The same for the type of one field. |
| `StructLayout.TypeResolver.FieldOffsets` | scripts/gen_win32_signatures.py:213-216 | The size, alignment and offsets that any caller gets are those of the recursion without a cache. |

## Left out

- Unicorn, capstone, ctypes and pefile: the engine is a set of pages, a register record and a byte map.
- `winemu.py` and the API handlers: only what their callers rely on in starting and continuing guest callbacks.
- Parsing of PE files in `PeLoader.make_image`, apart from the test for forwarders; the PE headers and the section
  contents of synthetic images other than .edata.
- Epilogues: the program unwinds a pc in an epilogue as one in the body, and the theorems are about prologues and bodies.
- Unwind version 2 codes and callback function tables: the program ignores both.
- Seh64.UnwindInPlace: a handler call has the flags, the DISPATCHER_CONTEXT and the CONTEXT as values; the bytes of them
  that the generators write to guest memory are part of what the oracle for a guest call may do to memory.
- Generators: the program's coroutines are loops in which a guest call is a call of the oracle. Their places on the
  callback stack are the events of `GuestCallbacks.Run`.
- `except_handler4_common` differs from the modelled handler only in where its scope table and cookies are.
- MemMgr.EveryRun: an explicit reservation in a run is page aligned and free, which the program does not check.
- MemMgr.MemoryManager.FreeMemory: tags, protections, hooks, processes and shared mappings; the removal of equal
  allocations, which compare by base address, is the removal of the block's allocations.
- Fp80.FpuStack.PushDouble: the tag word is a list of eight tags.
- Relocation.PathIndependent: relocation cells are disjoint and clear of the header fields, and the header lies in the
  data of its region and names the preferred base. The source does not check that the cells are disjoint.
- ApiImage.BuildApiImage: export names are unique; with equal names the source counts names once but writes each of them.
- ApiRegistry.TokensNeverShared: the conversion of names like `ordinal_7` to ordinals, and the identity of modules, which
  is a number.
- ApiRegistry.CallReachesEntry: that the function slots of the modules loaded at one time are apart and outside the .dyn
  sections is the predicate World, as the allocator of images gives; ApiImage.SlotsApart proves it inside one image.
- GdbProtocol.ReaderExact: sockets, acknowledgement sends and logging; an event stands for what the reader sends.
- GdbStop.FirstStopIsReturned: breakpoints and the resume pc.
- StartTimer.NoStopUntilNextDeadline: the clock is a real number that never goes back, and a wait may end at any time.
- PebRings.Process.AddModule: names, sizes and entry points in the loader entries; that entries do not overlap is what the
  allocator gives.
- PebRings.RingHolds: changes that the guest makes to the links.
- StructLayout.TypeResolver.LayoutStruct: the name in the cache key, which the identity of the definition decides, and the
  codes of parameter types.
- File, registry, network, session, crypto and drive managers, COM, the command line, configuration, reports, volumes,
  header scraping and printf: mostly table lookups, path matching and data declarations.
