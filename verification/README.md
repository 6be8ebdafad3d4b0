# Proofs about the kernel event flags and four small cores around them

This project models, in Dafny, the parts of the repository whose correctness is least visible from
reading them, and proves properties of the models.

**Event flags under preemption.** An event flags object is a 31-bit word and a linked list of waiting
threads. Service calls and post-processing run in one kernel context and never interleave with each
other; interrupt handlers set, clear and poll the same word between any two of their memory accesses
(`osEventFlagsClear` runs svcRtxEventFlagsClear inside the handler, osal/src/rtx/rtx_evflags.c:542-552).
The word is changed only by LDREX/STREX retry loops. The model has four layers, each tied to the next:

- `Monitor`, `History`, `RetryLoops`, `AtomicOps`: one exclusive monitor per agent, lost on anybody's
  store and at any other time; any number of agents run retry loops one instruction at a time; every run
  is linearizable. `LoopCode` writes the instruction sequences out as loops over a memory cell.
- `FreeList`: the lock-free list of memory blocks, one load or store at a time.
- `FlagWord`, `Sweep`, `Protocol`, `Accounting`: what the helpers do to the word, the waiter sweep on values,
  the instruction-level machine of service calls, post-processing and interrupt handlers, and what becomes of
  every call that a run of it begins.
- `ThreadList`, `EventFlags`: the same calls on control blocks in memory, with the list unlinked while it
  is being walked, proved against `Sweep.Run`.

**Four smaller cores.** `KeyDebounce` (a debouncer feeding a 16-slot ring that has no full test),
`Scaler` (16.16 fixed-point nearest-neighbour sampling), `Ov2640` and `Ov2640Window` (camera exposure and
window settings over a banked register file), `JpegInput` and `JpegOutput` (the tiles fed to a JPEG
encoder, and the window it writes into). The key's timer and its reader may preempt each other.

`Bits` says how words are represented; `Arith` holds facts about division.

## Main results

- `Protocol.NoLostWakeup`, `Protocol.ProcessingSettles`: at rest, a listed waiter whose condition is met
  is always covered by a queued post-processing, and that processing leaves nobody satisfied on the list.
- `Accounting.WaitsAccounted`, `Accounting.DeliveredWasTheWord`: over any run, every wait that was begun is in
  exactly one place with exactly one outcome, and what it returned was the word.
- `Protocol.FlagBitsConserved` with `Accounting.JobsAccounted`: over any run, no flag bit is consumed more often
  than sets that include it were begun.
- `Protocol.OutcomesSound`: a delivered value and an error code can never be confused.
- `Sweep.FirstComeFirstServed`, `ThreadList.PutPlace`, `EventFlags.KeepsProcessor`: who is woken with which flags,
  who stands where among equals, and who runs next, without reference to the functions that compute it.
- `RetryLoops.Linearizability` with `AtomicOps.CounterReturns`, and `FreeList.FreeListSafe`,
  `FreeList.FreeListIsAStack`: for any number of agents and any interleaving.
- `EventFlags.SvcSet`, `EventFlags.SetDeferred`, `EventFlags.PendSV`, `EventFlags.SvcDelete`: the calls on linked
  control blocks, up to which thread runs next.
- `JpegInput.EncodeAll` with `JpegInput.UntileRestores`, `Ov2640.ExposureRoundTrip`,
  `Ov2640Window.SetFramesize`, `Scaler.FixedPointExact`, `KeyDebounce.ReadsReturnStream`,
  `KeyDebounce.EveryTickExplained`.

Six places where the code does less than it may seem to:

- The key ring is a queue exactly while at most 15 values wait (`KeyDebounce.RingIsQueue`). It looks empty
  although values wait exactly when a positive multiple of 16 of them does (`KeyDebounce.LooksEmpty`), and eight
  presses and releases without a read get it there (`KeyDebounce.SixteenLookEmpty`). Reading until nothing comes
  at least every 15 ticks prevents it (`KeyDebounce.DrainingOftenIsEnough`).
- A read of the key ring that preempts the timer between the increment of the write index and its wrap finds
  different indices even if everything has been read. `KeyDebounce.Key.ReadValue` says exactly when a read goes
  wrong and what it does then; otherwise it reads the queue wherever it preempts the timer.
  `KeyDebounce.StaleRead` is a run in which it returns an old press again.
- `set_framesize` computes log2(ratio) - 1. Among the sizes it accepts this is non-negative exactly up to 400
  by 300, so never for a size that selects the UXGA setup (`Ov2640Window.DividerDefinedUpTo`). Twelve sizes of the
  driver's own table are on the wrong side, 640 by 480, which the demo is built with, among them
  (`Ov2640Window.TableSizes`).
- The JPEG input callback prepares one buffer after the last row of tiles. It stays inside the image exactly
  when the height is a multiple of 8 (`JpegInput.OneBufferTooMany`). Full consumption of the last row is the
  callback that comes next after every run of `JpegInput.EncodeAll`; with twelve lines it takes lines 16 to 23
  (`JpegInput.TwelveLines`).
- The extra byte of the JPEG completion callback, which a comment calls always safe
  (example/mdk_stm32h7_demo/user_bsp/bsp_jpege.c:206-207), goes to the byte behind the buffer exactly when the
  output fills the buffer to its last byte (`JpegOutput.Output.EncodeCpltCallback`). That takes an overflow, and
  one full window in a buffer of one window does it (`JpegOutput.FullBuffer`).
- The scaler's accumulated ratio is rounded up, so it is not exact for every display size. `Scaler.ExactWhen`
  says exactly when it is, for any display size, source size and column. The display of the demo is 160 by 120,
  for which, as for every size D with D * (D - 1) < 65536, it always is (`Scaler.FixedPointExact`); other display
  sizes generalise the code and are not inputs of it.

## Model

| member | source | states |
|---|---|---|
| History.EffectInsideCall | osal/inc/rtx/rtx_core_cm.h:521-931 | In a linearizable history every returned call took effect strictly between its own invocation and return, with the value it returned, computed from the state the earlier effects left |
| RetryLoops.StepKeepsInv | osal/inc/rtx/rtx_core_cm.h:648-695 | Every instruction of any agent keeps: tags are only set while nobody stored, the history is legal, the word is its outcome, and each agent's place in its loop agrees with its history; an early exit takes effect at its LDREX, a store at its STREX |
| RetryLoops.Linearizability | osal/inc/rtx/rtx_core_cm.h:521-931 | For every run of any number of agents at instruction granularity the calls on one word are linearizable and the word holds the outcome of the sequential execution |
| RetryLoops.NeverStuck | osal/inc/rtx/rtx_core_cm.h:521-931 | Whoever is inside a retry loop in a reachable state can execute its next instruction, and its store can succeed while its tag survives |
| AtomicOps.OnlyInvokedOps | osal/inc/rtx/rtx_core_cm.h:837-931 | Only operations that somebody began ever take effect |
| AtomicOps.BoundedCounter | osal/inc/rtx/rtx_core_cm.h:837-1091 | Any interleaved mix of atomic_inc16_lt(max) and atomic_dec16_nz keeps the counter in 0..max and equal to the start plus the increments minus the decrements that the callers can read off their returned values |
| AtomicOps.CounterReturns | osal/inc/rtx/rtx_core_cm.h:837-1091 | In every such run each call returns the counter as it is when the call takes effect, an increment that finds it below max raises it by one, a decrement that finds it above zero lowers it by one, and the others leave it |
| AtomicOps.RingSlots | osal/inc/rtx/rtx_core_cm.h:897-931 | atomic_inc16_lim by any agents hands out slot (start + k) mod lim to the k-th call to take effect, so no slot repeats within lim calls |
| LoopCode.ActsAtomically | osal/inc/rtx/rtx_core_cm.h:521-931 | Whatever other agents do between the attempts, a retry loop returns and leaves what the operation returns and leaves on a word the cell really held |
| LoopCode.AtomicSet32 | osal/inc/rtx/rtx_core_cm.h:521-560 | The loop computes the outcome of the attempts of SetBits under any interference; undisturbed it adds the bits and returns the new word |
| LoopCode.AtomicClr32 | osal/inc/rtx/rtx_core_cm.h:581-620 | The loop computes the outcome of the attempts of ClearBits under any interference; undisturbed it removes the bits and returns the old word |
| LoopCode.AtomicChk32All | osal/inc/rtx/rtx_core_cm.h:648-695 | The loop computes the outcome of the attempts of CheckAll, including the CLREX exit that returns 0; undisturbed it takes the bits and returns the old word if and only if all of them are set |
| LoopCode.AtomicChk32Any | osal/inc/rtx/rtx_core_cm.h:722-763 | The loop computes the outcome of the attempts of CheckAny, including the CLREX exit that returns 0; undisturbed it takes the bits and returns the old word if and only if any of them is set |
| LoopCode.AtomicInc16Lt | osal/inc/rtx/rtx_core_cm.h:837-872 | The loop computes the outcome of the attempts of IncLt, 16-bit wrap included; undisturbed it returns the old value and stores one more if and only if that is below max |
| LoopCode.AtomicInc16Lim | osal/inc/rtx/rtx_core_cm.h:897-931 | The loop computes the outcome of the attempts of IncLim, 16-bit wrap included; undisturbed it returns the old value and stores one more, or 0 at the limit |
| LoopCode.AtomicDec16Nz | osal/inc/rtx/rtx_core_cm.h:1058-1091 | The loop computes the outcome of the attempts of DecNz; undisturbed it returns the old value and stores one less unless that is 0 |
| FreeList.StepKeepsPartition | osal/inc/rtx/rtx_core_cm.h:1114-1202 | One load or store of any agent, or a write by a block's owner, keeps the chain from the root acyclic and null-terminated, and only a successful STREX changes it: it pops or pushes the head |
| FreeList.StepKeepsAgents | osal/inc/rtx/rtx_core_cm.h:1114-1202 | One instruction keeps what every agent relies on: an agent inside put owns its block, and while the tag of an agent inside get survives, the link it read is still the head's link |
| FreeList.FreeListSafe | osal/inc/rtx/rtx_core_cm.h:1114-1202 | In every reachable state the chain is acyclic and null-terminated, listed and owned blocks are disjoint, and their union is the set of blocks at the start |
| FreeList.FreeListIsAStack | osal/inc/rtx/rtx_core_cm.h:1114-1202 | The calls of every run are linearizable as a stack, and the chain in memory is the stack the sequential execution leaves |
| FreeList.StackLaws | osal/inc/rtx/rtx_core_cm.h:1114-1202 | A pop gives back the block pushed last and leaves what was there before it, and only a pop from the empty stack returns NULL |
| FreeList.PopTakesHead | osal/inc/rtx/rtx_core_cm.h:1114-1147 | A successful pop takes exactly the head of the chain in memory, which nobody owned, makes the caller its only owner and leaves the rest of the chain, also if the block was popped, reused and pushed back since the caller's LDREX |
| FreeList.NeverStuck | osal/inc/rtx/rtx_core_cm.h:1114-1202 | Whoever is inside get or put in a reachable state can execute its next instruction, and its store can succeed while its tag survives |
| FlagWord.FailedCheckKeeps | osal/src/rtx/rtx_evflags.c:96-134 | A check that returns 0 leaves the word as it was, also when waiting for all of no flags |
| FlagWord.CheckMonotone | osal/src/rtx/rtx_evflags.c:102-133 | Removing flags from the word never satisfies a waiter |
| FlagWord.DeliveredSound | osal/src/rtx/rtx_evflags.c:102-133 | A non-zero result of the check has bit 31 clear and meets the waiter's own all/any condition |
| FlagWord.LoopsMatchHelpers | osal/src/rtx/rtx_evflags.c:43-134 | The build with exclusive access returns and leaves the same values as the build that disables interrupts |
| Sweep.RunOneMore | osal/src/rtx/rtx_evflags.c:271-288 | A sweep of a longer list is the sweep of the first part followed by one more visit |
| Sweep.FinalFlags | osal/src/rtx/rtx_evflags.c:271-295 | The flags after a sweep are the flags before minus the wait flags of the woken clearing waiters |
| Sweep.NobodyLeftSatisfied | osal/src/rtx/rtx_evflags.c:271-288 | No waiter that stays on the list passes the check against the final flags |
| Sweep.SplitsTheList | osal/src/rtx/rtx_evflags.c:271-288 | Every waiter is visited once: the list splits into the kept and the woken, each in the original order |
| Sweep.DeliveriesSound | osal/src/rtx/rtx_evflags.c:274-285 | Every value a sweep delivers is non-zero, has bit 31 clear and meets the condition of the waiter that gets it |
| Sweep.DeliveredFromWord | osal/src/rtx/rtx_evflags.c:271-288 | Every bit a sweep delivers was in the word when the sweep started |
| Sweep.TakenOnce | osal/src/rtx/rtx_evflags.c:271-288 | What a clearing waiter took, no later waiter of the same sweep sees |
| Sweep.FirstComeFirstServed | osal/src/rtx/rtx_evflags.c:271-288 | The i-th waiter is woken if and only if its condition is met by the flags at the start minus those that woken clearing waiters before it took, and it gets exactly those flags |
| Sweep.SweepIdempotent | osal/src/rtx/rtx_evflags.c:141-158 | A second sweep with no new flags changes nothing |
| Protocol.OperationsAreTheLoops | osal/src/rtx/rtx_evflags.c:43-134 | The accesses of the machine are those of the retry loops: same exits, same stores, same results |
| Protocol.StepKeepsWord | osal/src/rtx/rtx_evflags.c:43-134 | Every step keeps bit 31 of the word clear and the exclusive tags coherent |
| Protocol.StepKeepsNoneLost | osal/src/rtx/rtx_evflags.c:256-552 | Every step of the kernel or of a handler keeps the wake-up invariant, also for a set or a clear that lands between the check and the listing in a wait, and in the middle of a sweep |
| Protocol.NoLostWakeup | osal/src/rtx/rtx_evflags.c:339-378 | In every reachable state with no kernel call and no handler under way, if a listed waiter's condition is met by the current flags, post-processing is registered |
| Protocol.ProcessingSettles | osal/src/rtx/rtx_evflags.c:141-158 | From such a state post-processing can start, and run alone it ends with nobody on the list whose condition is met |
| Protocol.NeverStuck | osal/src/rtx/rtx_evflags.c:43-134 | Whoever is inside a helper in a reachable state can execute its next access |
| Protocol.OutcomesSound | osal/src/rtx/rtx_evflags.c:339-378 | In every run bit 31 of the word is never set, every delivered value is non-zero with bit 31 clear and meets the waiter's condition, and every other outcome is an error code with bit 31 set |
| Protocol.StepConserves | osal/src/rtx/rtx_evflags.c:96-134 | In every step a clearing delivery of a bit is a 1-to-0 transition of it, and only a set that includes the bit makes a 0-to-1 transition |
| Protocol.FlagBitsConserved | osal/src/rtx/rtx_evflags.c:43-134 | Over any run of sets, clears, waits, sweeps, timeouts, terminations and handlers that set, poll and clear, a bit is carried by at most as many clearing deliveries as sets included it |
| Protocol.VisitOne | osal/src/rtx/rtx_evflags.c:273-287 | The instructions of one check, uninterrupted, take the machine to the word, list and delivery that the visit has on values |
| Protocol.UninterruptedSweep | osal/src/rtx/rtx_evflags.c:271-288 | Run alone, the machine's sweep ends with exactly the flag word, list and deliveries of `Sweep.Run` |
| Accounting.WaitsAccounted | osal/src/rtx/rtx_evflags.c:339-420 | In every run, however often a wait was begun: it is being worked on, on the object's list, terminated there, or has an outcome, exactly once in all |
| Accounting.JobsAccounted | osal/src/rtx/rtx_evflags.c:256-487 | In every run every set that a thread or a handler began is still in its retry loop or happened exactly once, with its flags, and every poll of a handler is in its helper or ended with exactly one outcome |
| Accounting.BlockedIsListed | osal/src/rtx/rtx_evflags.c:359-367 | Whatever run came before, after a thread blocked the list holds what it held and the waiter that the latest wait brought, with its flags and options |
| Accounting.ServesWhatWasBegun | osal/src/rtx/rtx_evflags.c:256-552 | In every reachable state the set, clear, wait or poll that the kernel or a handler is in the middle of is the one its latest call asked for, with the same flags and options |
| Accounting.ChecksDecide | osal/src/rtx/rtx_evflags.c:347-378 | A check that a non-empty word meets delivers exactly that word, one that it does not meet delivers nothing |
| Accounting.WaitDecided | osal/src/rtx/rtx_evflags.c:352-378 | A wait whose check succeeds returns the word; one whose check fails goes on to block if a timeout was given, and returns osErrorResource if not |
| Accounting.DeliveredWasTheWord | osal/src/rtx/rtx_evflags.c:347-378 | Every value that a wait or a poll of a run returned was, whole, the word at an earlier point of the run, and met the caller's condition |
| Accounting.RefusalsHaveReasons | osal/src/rtx/rtx_evflags.c:339-420 | Over any run there are as many osErrorTimeout outcomes as timeouts and refused suspensions, as many osErrorParameter outcomes as refused parameters, and no other code but osErrorResource |
| Accounting.ResourceHasReason | osal/src/rtx/rtx_evflags.c:374-398 | In every run a thread gets osErrorResource only if it gave no timeout or the object is being deleted |
| Accounting.RegistrationsCounted | osal/src/rtx/rtx_system.c:169-199 | The object's entries in the ISR queue are the registrations of handlers minus the post-processings that started |
| Accounting.DeletedForGood | osal/src/rtx/rtx_evflags.c:382-420 | After a delete nobody is listed and no call of the kernel or of a handler begins any more |
| Accounting.EverythingCanHappen | osal/src/rtx/rtx_evflags.c:256-552 | A thread that is to block can be listed and can be refused, a sweep can end, a delete can go on, a registration can be taken, any call can begin while the object exists, and a handler that set flags can register the object |
| ThreadList.PutSorted | osal/src/rtx/rtx_thread.c:142-160 | Inserting a thread keeps a list sorted by priority |
| ThreadList.PutAdds | osal/src/rtx/rtx_thread.c:142-160 | Inserting a thread adds exactly that thread |
| ThreadList.PutPlace | osal/src/rtx/rtx_thread.c:146-153 | Every thread of the same or a higher priority stays before the inserted one, every thread of a lower priority comes after it, and they keep their order: first in, first out among equals |
| ThreadList.FindPlace | osal/src/rtx/rtx_thread.c:146-153 | The search finds the place behind every thread of the same or a higher priority at the front |
| ThreadList.ListPut | osal/src/rtx/rtx_thread.c:142-160 | The links spell out the list with the thread inserted at its place, forwards and backwards |
| ThreadList.ThreadBlock | osal/src/rtx/rtx_thread.c:393-416 | A preempted thread is linked in before every ready thread of its own priority |
| ThreadList.PutFrontSorted | osal/src/rtx/rtx_thread.c:393-416 | Doing so keeps the ready list sorted and adds exactly that thread |
| ThreadList.FrontPlace | osal/src/rtx/rtx_thread.c:393-416 | Exactly the threads of a higher priority come before the preempted one, and the others keep their order |
| ThreadList.ListGet | osal/src/rtx/rtx_thread.c:165-176 | Returns the first thread; the links spell out the rest |
| ThreadList.ListRemove | osal/src/rtx/rtx_thread.c:212-221 | The links spell out the list without the thread, whose own next link is still readable; a thread on no list is left alone |
| EventFlags.EventFlagsSet | osal/src/rtx/rtx_evflags.c:43-63 | Adds the flags and returns the new word |
| EventFlags.EventFlagsClear | osal/src/rtx/rtx_evflags.c:69-89 | Removes the flags and returns the old word |
| EventFlags.EventFlagsCheck | osal/src/rtx/rtx_evflags.c:96-134 | Returns the word before clearing if the condition is met and 0 otherwise; clears the flags only in the first case and only if the options ask for it |
| EventFlags.WaitExit | osal/src/rtx/rtx_thread.c:464-478 | The value reaches the thread's stacked R0 and the thread its place in the ready list |
| EventFlags.WaitEnter | osal/src/rtx/rtx_thread.c:484-510 | Fails unless the kernel runs and a thread is ready; otherwise takes the first ready thread |
| EventFlags.ChosenIsHighest | osal/src/rtx/rtx_thread.c:429-458 | While the kernel runs, after dispatching no ready thread has a higher priority than the one that runs next, and no thread is lost or doubled |
| EventFlags.KeepsProcessor | osal/src/rtx/rtx_thread.c:429-448 | The running thread is replaced if and only if the kernel runs and the first ready thread has a strictly higher priority; otherwise the ready list stays as it is, and a preempted thread stays ahead of its equals |
| EventFlags.Dispatch | osal/src/rtx/rtx_thread.c:429-448 | The links spell out that choice: another thread runs next if and only if the kernel runs and the first ready thread's priority is strictly higher; otherwise the ready list is unchanged |
| EventFlags.SweepTracking | osal/src/rtx/rtx_evflags.c:271-288 | Walking the linked list while unlinking leaves flag word, waiting list, ready list and the R0 of every woken thread as `Sweep.Run` on the original waiters prescribes, and the tracked word is the stored word |
| EventFlags.PostProcess | osal/src/rtx/rtx_evflags.c:141-158 | The same outcome as the sweep of a set, for the flags as they are |
| EventFlags.AcceptsWhat | osal/src/rtx/rtx_evflags.c:261-262 | A call is accepted if and only if the object exists, is an event flags object, and all flags asked for are among the 31 |
| EventFlags.SvcSet | osal/src/rtx/rtx_evflags.c:256-296 | A refused call changes nothing; an accepted one leaves the outcome of `Sweep.Run` for the old flags plus the new ones, touches no R0 of a thread that keeps waiting, returns the stored word, dispatches, and loses no thread |
| EventFlags.SvcClear | osal/src/rtx/rtx_evflags.c:300-318 | A refused call changes nothing; an accepted one, by a thread or by a handler, removes the flags and returns the word before |
| EventFlags.LowByteKeepsChecks | osal/src/rtx/rtx_evflags.c:365-367 | The low byte of the options is stored, and that does not change any later check |
| EventFlags.SvcWait | osal/src/rtx/rtx_evflags.c:339-378 | Every outcome: refused, delivered at once, not suspended, suspended and listed at its priority with its flags and options stored, or no timeout given; and which thread runs next |
| EventFlags.SvcDelete | osal/src/rtx/rtx_evflags.c:382-420 | Every waiter is released once, in list order, with osErrorResource, none stays linked, the object is invalid, and if anybody was released the next thread is chosen |
| EventFlags.IsrSet | osal/src/rtx/rtx_evflags.c:439-460 | Adds the flags, registers the object for post-processing and returns the new word |
| EventFlags.IsrWait | osal/src/rtx/rtx_evflags.c:465-487 | Polls once; a timeout is a parameter error |
| EventFlags.ProcessEntry | osal/src/rtx/rtx_system.c:172-196 | Sweeping an object that was swept already changes nothing, so any number of entries has the outcome of one |
| EventFlags.PendSV | osal/src/rtx/rtx_system.c:169-199 | Empties the queue and dispatches: however often the object was registered the outcome is that of one sweep, and an object deleted meanwhile is left alone |
| EventFlags.SettlesFixes | osal/src/rtx/rtx_evflags.c:271-295 | The outcome that a set and post-processing are proved to have leaves nothing open: it determines the flag word, both lists in order, the R0 of every woken thread and the next thread |
| EventFlags.ReleasedWithError | osal/src/rtx/rtx_evflags.c:392-398 | After a delete every thread that waited has osErrorResource in its R0, and the flag word is as it was |
| EventFlags.SetDeferred | osal/src/rtx/rtx_evflags.c:439-460 | A handler's set followed by post-processing has the same outcome as svcRtxEventFlagsSet: same threads in the same order, same values, same flags, same next thread |
| EventFlags.UseAfterDelete | osal/src/rtx/rtx_evflags.c:256-487 | On an invalid object set, clear, wait and delete, and set and wait from a handler, return osErrorParameter and change nothing |
| EventFlags.DeleteThenUse | osal/src/rtx/rtx_evflags.c:382-420 | After a delete every such call by whichever thread runs then is refused, and memory stays as the delete left it |
| KeyDebounce.Key.HandleTimer | hal/src/hal_key.c:19-64 | One tick moves the state machine and writes to the ring what the machine on values emits |
| KeyDebounce.Key.PutValue | hal/src/hal_key.c:33 | The store of a value changes nothing that a read can see, and only that slot |
| KeyDebounce.Key.Advance | hal/src/hal_key.c:34 | The increment of the write index publishes the value, before the wrap |
| KeyDebounce.Key.ReadValue | hal/src/hal_key.c:138-150 | A read, also one that preempts the timer between two of its stores, returns the oldest entry that the two counts admit, or none; the exact exception is an index whose wrap is pending with nothing readable: then slot 0 is returned and the read index moves ahead |
| KeyDebounce.Key.ReadAcrossTick | hal/src/hal_key.c:138-150 | A tick that preempts a read after its comparison leaves the result of the read and of the tick as if the read had come first, however many values wait |
| KeyDebounce.StaleRead | hal/src/hal_key.c:19-150 | From a new key, after every value was read, two reads between the increment and the wrap for the sixteenth value return it and then the first press again |
| KeyDebounce.Key.ChangeMode | hal/src/hal_key.c:152-161 | The active level and the pin mode that goes with it change, in any state, and nothing else |
| KeyDebounce.RingIsQueue | hal/src/hal_key.c:138-150 | The readable entries are the unread ones if and only if at most 15 are unread, and their number is always the number of unread ones modulo 16 |
| KeyDebounce.LooksEmpty | hal/src/hal_key.c:140-141 | A read returns none although values wait if and only if a positive multiple of 16 of them waits |
| KeyDebounce.SixteenLookEmpty | hal/src/hal_key.c:19-64 | Eight presses and releases without a read leave 16 values waiting and a read that returns none |
| KeyDebounce.StreamWellFormed | hal/src/hal_key.c:19-64 | For any samples, changes of level and reads the emitted stream is a prefix of (PRESS LONG* RELEASE)*, and PRESS needs the pin active at two consecutive ticks |
| KeyDebounce.EveryTickExplained | hal/src/hal_key.c:19-64 | Every tick of a run emits exactly what the earlier ticks decide: a press at the second active tick in a row while the key is up, a release at the first inactive tick while it is down, a long press once 500 ticks modulo 2^32 have passed since the press was first seen or since the last long press, nothing otherwise; and the ring is given these values |
| KeyDebounce.ReadsReturnStream | hal/src/hal_key.c:138-150 | If the backlog never exceeds 15, reads return exactly the emitted stream in order, and none only when all of it was read |
| KeyDebounce.DrainingOftenIsEnough | hal/src/hal_key.c:138-150 | A caller that reads until none at least every 15 ticks keeps the backlog at 15 or less, and its reads return exactly the emitted stream |
| Scaler.RatioExcess | example/riscvgcc_k210_demo/main.c:78-79 | How far the accumulated ratio is ahead of the exact position, as an equation |
| Scaler.ExactWhen | example/riscvgcc_k210_demo/main.c:76-92 | For every display size, source size and column the accumulated position shifted right by 16 is floor(x * size / D) if and only if that excess stays below what is left of the exact position's fraction |
| Scaler.FixedPointExact | example/riscvgcc_k210_demo/main.c:76-92 | For every display size D with D * (D - 1) < 65536 and every 16-bit source size, the accumulated position shifted right by 16 is floor(x * size / D) |
| Scaler.NoWrap | example/riscvgcc_k210_demo/main.c:82-90 | No accumulated position wraps 32 bits, including the one after the last pixel |
| Scaler.InsideSource | example/riscvgcc_k210_demo/main.c:85-87 | Every sampled index lies inside the source |
| Scaler.PastTheBound | example/riscvgcc_k210_demo/main.c:78-79 | Past that bound, on sizes the demo does not have, it depends on the sizes: 257 columns miss a one-pixel source, 258 columns show it exactly |
| Scaler.RefreshRow | example/riscvgcc_k210_demo/main.c:85-88 | The inner loop fills one display row with the nearest source samples and touches no other row |
| Scaler.RefreshDispImage | example/riscvgcc_k210_demo/main.c:76-92 | Every display pixel, at index 160 * y + x, shows the source pixel at index width * floor(y * height / 120) + floor(x * width / 160) |
| Ov2640.Clocks | example/riscvgcc_k210_demo/ov2640.c:634-636 | The clock factor is between 1 and 72 whatever CLKRC holds; what it is exactly is stated by ClockBits |
| Ov2640.ClockBits | example/riscvgcc_k210_demo/ov2640.c:634-645 | With both doubling bits of CLKRC clear the factor is the number of whole megahertz in three times the divided 24 MHz; bit 7 doubles it up to one for rounding; bit 1 doubles it too, and then bit 7 changes nothing |
| Ov2640.ResetClock | example/riscvgcc_k210_demo/ov2640.c:22 | The value that the driver resets CLKRC to gives 36 clocks a microsecond, with bit 7 set 72 |
| Ov2640.TimingCodes | example/riscvgcc_k210_demo/ov2640.c:627-643 | The codes of the resolutions and of the formats, which no other bit of COM7 or IMAGE_MODE changes |
| Ov2640.CountIsLargest | example/riscvgcc_k210_demo/ov2640.c:645 | The count is the largest number of whole lines that fit into the exposure time, up to 65535 |
| Ov2640.TenMilliseconds | example/riscvgcc_k210_demo/ov2640.c:618-660 | With the clock as reset, SVGA and RGB565, setting ten milliseconds stores 151 lines |
| Ov2640.Sensor.SetAutoExposure | example/riscvgcc_k210_demo/ov2640.c:618-660 | Writes the automatic-exposure bit, the lowest of COM8, and in manual mode the largest count of lines that fit into the exposure time, keeping all other bits |
| Ov2640.Sensor.GetExposureUs | example/riscvgcc_k210_demo/ov2640.c:662-703 | Returns the time of the stored count and changes no register |
| Ov2640.CountRoundTrip | example/riscvgcc_k210_demo/ov2640.c:648-656 | A stored 16-bit count reads back, its lowest two bits from REG04, the next eight from AEC and the highest six from REG45; the other bits of REG04 and REG45 and the timing are untouched |
| Ov2640.ExposureRoundTrip | example/riscvgcc_k210_demo/ov2640.c:644-702 | The time read back is never above the time set and, unless the count saturates, short of it by less than one line plus one clock |
| Ov2640.ReadBackMovesByOne | example/riscvgcc_k210_demo/ov2640.c:644-702 | Setting the time that was read back moves the count down by at most one |
| Ov2640.SetThenGet | example/riscvgcc_k210_demo/ov2640.c:618-707 | The round trip through the register file, with that bound |
| Ov2640Window.DividerDefinedUpTo | example/riscvgcc_k210_demo/ov2640.c:418-441 | An accepted size has a ratio of at least 2 exactly up to 400 by 300, and a size that selects the UXGA setup always has ratio 1 |
| Ov2640Window.TableSizes | example/riscvgcc_k210_demo/bsp_sensor.c:20-65 | Of the sizes a caller can select, exactly the empty one, 640 by 480, 480 by 320, 320 by 320 and those from 720 by 480 up to 1600 by 1200 and 1280 by 720 are accepted with a divider that is not defined |
| Ov2640Window.DividerBounds | example/riscvgcc_k210_demo/ov2640.c:440-444 | The scaled window takes at most half the sensor each way and, unless the divider is capped, more than a quarter one way |
| Ov2640Window.WindowIsCentred | example/riscvgcc_k210_demo/ov2640.c:440-446 | The scaled window lies exactly centred inside the sensor, and every number fits its register fields |
| Ov2640Window.WindowRoundTrip | example/riscvgcc_k210_demo/ov2640.c:448-458 | The packed fields do not overlap: decoding HSIZE, VSIZE, VHYX, TEST, XOFFL, YOFFL, ZMOW, ZMOH and ZMHH gives back the window |
| Ov2640Window.WrittenBytes | example/riscvgcc_k210_demo/ov2640.c:448-458 | Which bits of the window each register holds |
| Ov2640Window.DividerRegisters | example/riscvgcc_k210_demo/ov2640.c:448-459 | CTRLI holds the logarithm of the divider in both of its fields and the low-power bit, R_DVP_SP the divider itself, and the reset is released |
| Ov2640Window.SetupEffect | example/riscvgcc_k210_demo/ov2640.c:219-253 | The setup table selects the resolution, ends in the DSP bank and keeps the exposure count, the clock and the format |
| Ov2640Window.SetFramesize | example/riscvgcc_k210_demo/ov2640.c:408-463 | A refused size changes nothing; an accepted one writes the setup table and the centred window and nothing else, with the divider that takes the output size to the window, leaves the SVGA line time, and keeps the exposure count |
| JpegInput.ExpandGivesSamples | example/mdk_stm32h7_demo/user_bsp/bsp_jpege.c:24-27 | Each table entry spells the samples of its four bits, lowest bit in the lowest byte |
| JpegInput.GrayscaleLine | example/mdk_stm32h7_demo/user_bsp/bsp_jpege.c:90-116 | For every dx from 1 to 8 the four-, two- and one-byte stores copy exactly the first dx bytes |
| JpegInput.BinaryLine | example/mdk_stm32h7_demo/user_bsp/bsp_jpege.c:53-80 | For every dx from 1 to 8 the stores write exactly the first dx samples of the packed bits |
| JpegInput.GetMcu | example/mdk_stm32h7_demo/user_bsp/bsp_jpege.c:38-118 | The 64 bytes are the tile in 8 by 8 order, zero past the right and bottom edges; nothing else is written; colour images are refused and nothing is written |
| JpegInput.RowFits | example/mdk_stm32h7_demo/user_bsp/bsp_jpege.c:242-243 | The 32-bit product that sizes a row of tiles does not wrap if and only if the width is at most 536870904 |
| JpegInput.Input.RefreshBuffer | example/mdk_stm32h7_demo/user_bsp/bsp_jpege.c:147-166 | The buffer holds the row of tiles, left to right, for every width and height |
| JpegInput.Input.GetDataCallback | example/mdk_stm32h7_demo/user_bsp/bsp_jpege.c:168-181 | On full consumption the next row of tiles is submitted, on partial consumption the rest of the buffer, past the image nothing |
| JpegInput.OneBufferTooMany | example/mdk_stm32h7_demo/user_bsp/bsp_jpege.c:147-176 | The buffer prepared after the last row of tiles stays inside the image if and only if the height is a multiple of 8 |
| JpegInput.TwelveLines | example/mdk_stm32h7_demo/user_bsp/bsp_jpege.c:147-176 | With twelve lines that buffer takes lines 16 to 23 |
| JpegInput.EncodeAll | example/mdk_stm32h7_demo/user_bsp/bsp_jpege.c:254-261 | While every buffer is fully consumed, the submitted buffers are the rows of tiles of the image, in order and all of them, and the run stops where one more callback prepares the buffer too many |
| JpegInput.SampleIsAt | example/mdk_stm32h7_demo/user_bsp/bsp_jpege.c:38-181 | Sample (x, y) of the image data is byte 64 * (x / 8) + 8 * (y % 8) + x % 8 of tile row y / 8, and the number and the length of the rows are as the size asks for |
| JpegInput.UntileRestores | example/mdk_stm32h7_demo/user_bsp/bsp_jpege.c:147-181 | Untiling the submitted buffers restores the image exactly: the bytes of a grey image and every bit of a packed one |
| JpegInput.PaddingIsZero | example/mdk_stm32h7_demo/user_bsp/bsp_jpege.c:84-86 | Every byte of a tile outside the image is zero |
| JpegOutput.Output.DataReadyCallback | example/mdk_stm32h7_demo/user_bsp/bsp_jpege.c:183-196 | Counts the bytes, signals overflow exactly when less than a window is left, and otherwise moves the window |
| JpegOutput.Output.Deliver | example/mdk_stm32h7_demo/user_bsp/bsp_jpege.c:183-196 | Until overflow the window starts behind the output and lies inside the buffer, so the output stays contiguous |
| JpegOutput.Output.EncodeCpltCallback | example/mdk_stm32h7_demo/user_bsp/bsp_jpege.c:198-212 | A pending completion byte follows the output, inside the buffer if and only if the output does not fill it; outside only after an overflow |
| JpegOutput.FullBuffer | example/mdk_stm32h7_demo/user_bsp/bsp_jpege.c:206-208 | With a buffer of 512 bytes and one piece of 512 bytes a pending completion byte goes to index 512 |
| JpegOutput.CleanTrailingBytes | example/mdk_stm32h7_demo/user_bsp/bsp_jpege.c:29-36 | Stops behind the last FF D9 if there is one, and otherwise leaves at most one byte |
| JpegOutput.Collect | example/mdk_stm32h7_demo/user_bsp/bsp_jpege.c:183-288 | For any run of deliveries either overflow is signalled, exactly when less than a window is left, or the result is what was delivered up to and including the last FF D9 |
| JpegOutput.ImageIsKept | example/mdk_stm32h7_demo/user_bsp/bsp_jpege.c:29-36 | An image that ends in FF D9, followed by bytes without one, comes back whole |

## Left out

- EventFlags.SvcWait: the delay list and the tick that times a waiter out are not part of the model on memory; `Protocol` has the timeout as a step.
- EventFlags.SvcDelete: freeing the memory of an object the kernel allocated is not modelled, so the statements after deletion are about memory supplied by the caller.
- EventFlags.WaitExit: the thread state, the delay list and the variant that dispatches at once, which no call here uses, are not modelled.
- EventFlags.WaitEnter: the thread state and the delay list are not modelled.
- EventFlags.Dispatch: the kernel state is a flag and the thread states are not modelled; the variant for a given thread is not used here.
- EventFlags.PendSV: queue entries of threads, semaphores, memory pools and message queues are not modelled.
- EventFlags.IsrSet: the ISR queue is assumed to accept every registration; the queue overflow notification is left out.
- LoopCode.AtomicSet32: `env` is finite, so after its end nobody interferes and the loop ends; that a loop ends under endless interference is not true and not claimed.
- RetryLoops.Linearizability: atomic_wr8, atomic_inc32, atomic_dec32 and atomic_dec32_nz have the same shape, for which the theorem holds, but are not written out.
- Ov2640.SetThenGet: register files whose resolution or format bits are none of the three handled ones make the source divide by zero, and larger products overflow its int; both are preconditions of setting an exposure.
- Ov2640Window.SetFramesize: with a ratio of 1 the divider is negative before its conversion to an unsigned number, which C leaves undefined, and an empty size divides by zero; both are excluded for accepted sizes.
- JpegInput.Input.GetDataCallback: after the last row of tiles of an image whose height is not a multiple of 8 the source reads past the image; the call is excluded there. After partial consumption the source never restarts on a full buffer; nothing is claimed about runs with it.
- Ov2640.Sensor.SetAutoExposure: the same preconditions as Ov2640.SetThenGet.
- JpegInput.GetMcu: the row-pointer macros are not in the repository; an image is given line by line, a packed line as ceil(w / 32) words.
- JpegOutput.Output.EncodeCpltCallback: the byte behind the buffer is not part of the model; a write to it is reported by `outside`.
- KeyDebounce.ReadsReturnStream: runs consist of whole ticks and whole reads; a read inside a tick and a tick inside a read are the contracts of Key.ReadValue and Key.ReadAcrossTick.
- Scaler.RefreshDispImage: pixels are indexed, not addressed as two bytes each.
- KeyDebounce.Key.constructor: sets the fields as key_create does; the timer, the memory and the inverted result test of key_create, and key_destroy, are not part of the model.
- Words are sets of bit positions (`Bits`), so arithmetic on flag words does not arise and is not modelled.
- The loop bodies of the sweeps and of the delete call are split into methods of their own (Visit, VisitPosition, VisitNext, ReleaseFirst, ReleaseNext, ProcessEntry), and the word that svcRtxEventFlagsSet tracks is updated by one expression; the source has them inline.
- svcRtxEventFlagsNew, svcRtxEventFlagsGet, svcRtxEventFlagsGetName and the trampolines around the service calls: allocation, reads and plumbing.
- The event recorder: tracing only.
- Priority changes and termination of waiting threads: steps of `Protocol`, not modelled on memory.
- osal/inc/rtx/rtx_core_ca.h: the same loops for Cortex-A.
- Failing register accesses of the camera driver, its gain and white-balance code, and every other setting.
- The JPEG encoder itself, the cache maintenance, and the memory allocation around a compression.
- Vendor and board setup, displays, file systems, flash and updates over the air.
