# Mesh NoC test platform: a verified model

The platform simulates eight tiles, eight DMEM modules and a C0 master connected by a mesh, all in one C program.
This project models its four cooperating parts and proves what they promise, or exactly when they keep the promise.

1. **Interrupts** (`PlicBank`, `PlicRegisters`, `InterruptProtocol`, `InterruptSystem`, `SetupTable`, `DrainProtocol`,
   `Delivery`, `DeliveryRuns`). A register bank stands for sets of source ids (`PlicRegs.View`). The setup loop, the
   trigger and both of C0's drain loops are methods proved equal to functions on those sets; draining is then shown to
   be a priority sort that always ends, although a handler can raise new interrupts while it runs, and delivery is
   followed over whole histories of triggers, claims and completions by any harts.
2. **Task dispatch** (`TaskProtocol`, `TaskInvariant`, `TaskTheorems`, `TaskRuns`, `TaskProgress`, `TaskResults`,
   `TaskResets`, `TaskCompletion`, `TaskOrder`, `TaskSchedule`, `TaskStore`, `InterruptTasks`, `LockOrder`). C0 and
   any number of polling tiles are one state machine: every lock-protected section and every unlocked write is one
   step, and all theorems range over all interleavings. `TaskStore.Dispatcher` is the same store and counters updated
   in place; each of its methods is a stretch of steps of that machine. `TaskResults` follows each test's return value
   to where C0 reads it, and `InterruptTasks` shows that C0's interrupt drains are steps of the same machine. Most
   theorems start from a reset that finds every tile polling; `TaskResets` and `TaskCompletion` start from any reset
   and say exactly when nothing is lost and everything completes. `LockOrder` proves freedom from deadlock of the
   mutexes themselves, and that at most one destination lock is ever held.
3. **Memory and transfer engines** (`AddressMap`, `AddressWindows`, `FlatMemory`, `PlatformMemory`, `NocRouter`,
   `DmaRegisters`, `DmaEngine`, `DmaTransfer`, `DmaTheorems`, `DmaReset`, `TileDma`, `DmaOverlap`). Thirty-three
   separate buffers behind `addr_to_ptr` are shown to act as one flat byte map (`Memory.Flat`), and `AddressWindows`
   gives the memory map in numbers. Router and DMA transfers are operations on that map. The DMA registers lie inside
   the memory the engine moves, so the transfer theorems say exactly which overlaps do harm.
4. **Task queue** (`TaskQueue`). The ring refines a bounded FIFO sequence over every run, and the slot a pop hands out
   is shown to stay good for an exact number of pushes.

`Words`, `Finite` and `Arithmetic` hold supporting facts. `dafny verify dfyconfig.toml` checks the whole project.

## How the C is read

- 32-bit interrupt registers are sets of bit positions (`Words.Word`), with `|`, `&`, `~` and `!` as set operations.
  DMA registers are numbers whose bytes lie in memory in little-endian order, because a transfer can overwrite them.
- A pointer is a buffer number and an offset (`AddressMap.Ptr`). `memcpy` between overlapping ranges and accesses past
  the end of a buffer have no meaning in C, so methods that copy require ranges of an accepted size to be at most
  0xE0001 bytes (`InBounds`) and, for `memcpy`, disjoint. `AcceptedIsOneInstanceIff` shows that this size is exactly
  what "the range check accepted it" needs in order to mean "it lies in one buffer".
- Each access to an interrupt register is one atomic event. In C, tiles and C0 read, change and write the pending words
  without a lock, so two accesses at once could also lose an update; that is not modelled.
- HAL calls hold `hal_mutex` throughout, so each is one atomic operation. A NULL returned for a full store is -1.
- Setup is modelled for up to eight harts: beyond that `plic_select` answers NULL, which its callers dereference.

## Where the code differs from its comments or evident intent

The model follows the code; a theorem marks each gap.

- Raising a source assigns the whole pending word (`AssignInsertsIff`, `PendingSurvivesTriggerIff`,
  `SecondTriggerDropsFirst`).
- Disabling a source masks with `!mask`, clearing the whole word (`DisableRemovesIff`, `DisablingOneDisablesAll`).
- Source ids do not depend on the target, so other harts on the target's bank can claim too (`OnlyTargetClaimsIff`,
  `WrongHartCanClaim`).
- The legacy drain loop's decoder does not match the encoder (`LegacyDecodeInvertsSourceIdIff`,
  `LegacyDecodeMissesSupported`, `LegacyDrainCountsNothing`).
- The comment "check that the entire range is valid" in `validate_address` holds up to 0xE0001 bytes
  (`SafeSizeIsSharp`).
- The DMA register region of `get_address_region` and the register buffer of each tile can never be reached, because
  the window lies inside DLM1 (`DmaRegistersAreDlm1`, `DmaRegBufferUnreachable`).
- The busy mask of the DMA status register is built with the shift of the mode field, so the bit is 8, not 0.
- Nothing keeps a transfer off the tile's own DMA registers (`DeliversIff`, `RegisterOverlapLosesData`).
- A packet's length has sixteen bits, but a remote transfer reports the full size (`RemoteTransferHonestIff`,
  `WholePacketIsLost`).
- Destination locks protect only what is written, not what is read (`DifferentLocksCommuteIff`,
  `LocksDoNotOrderReads`).
- A task is assigned before it is counted, so `active_tasks` can go below zero (`ActiveCanGoNegative`,
  `ActiveBelowZeroIff`), and the wait for completion counts what stragglers and interrupt handlers add
  (`WaitSafeIffQuiescent`, `IrqBreaksWait`).
- The store is cleared without asking whether a tile still holds a slot. A tile that has not marked its old task yet
  then marks a new one, which no tile ever takes (`StragglerLosesTask`). No task runs twice after any reset
  (`NeverTwice`), but "none is lost" (`ExactlyOnceIff`) and completion (`CompletionIff`) hold exactly when at the reset
  every tile is past its last write to its slot.

## Model

| member | source | states |
|---|---|---|
| PlicBank.WinnerIsUnique | interrupt/plic.c:184-211 | a claim's winner (highest priority, lowest id on a tie, among pending, enabled and above threshold) is determined by the state |
| PlicBank.CanClaimIff | interrupt/plic.c:181-206 | a target can claim exactly the pending sources enabled for it whose low eight priority bits are strictly above the low sixteen bits of its threshold |
| PlicBank.BestBelowStep | interrupt/plic.c:188-211 | one step of the scan keeps "best so far is the winner among the sources already seen", because only a strictly higher priority replaces it |
| PlicBank.BestBelowAll | interrupt/plic.c:213-223 | after the whole scan the result is 0 exactly when nothing can be claimed, and the winner otherwise |
| PlicBank.OrInserts | interrupt/plic.c:147-155 | or-ing one mask into a bank inserts exactly one source id |
| PlicBank.AndComplementRemoves | interrupt/plic.c:213-221 | and-ing with the complement removes exactly one source id |
| PlicBank.AssignReplacesWord | interrupt/plic.c:111-122 | assigning the mask drops every other id of the word |
| PlicBank.AndLogicalNotClearsWord | interrupt/plic.c:167-175 | and-ing with the logical negation removes every id of the word |
| PlicBank.AssignInsertsIff | interrupt/plic.c:111-122 | raising a source inserts just its id exactly when no other id of its word was pending |
| PlicBank.DisableRemovesIff | interrupt/plic.c:167-175 | disabling a source removes just its id exactly when no other id of its word was enabled |
| PlicRegisters.PlicRegs.PrioritySet | interrupt/plic.c:84-90 | rejects ids outside 1..1023; otherwise accumulates the low eight bits into that one priority register and nothing else |
| PlicRegisters.PlicRegs.PendingRead | interrupt/plic.c:100-109 | non-zero exactly for pending sources, -1 exactly for invalid ids |
| PlicRegisters.PlicRegs.PendingWrite | interrupt/plic.c:111-122 | the source becomes pending and the rest of its word is lost; nothing else changes |
| PlicRegisters.PlicRegs.Enable | interrupt/plic.c:147-155 | inserts exactly the source into that target's enable set; invalid arguments change nothing |
| PlicRegisters.PlicRegs.Disable | interrupt/plic.c:167-175 | removes the source's whole word from that target's enable set |
| PlicRegisters.PlicRegs.ThresholdWrite | interrupt/plic.c:235-240 | stores the low sixteen bits as the threshold of the target, taken modulo 256, and changes nothing else |
| PlicRegisters.PlicRegs.CompleteWrite | interrupt/plic.c:226-233 | records the id in that target's claim register, nothing else |
| PlicRegisters.PlicRegs.ScanForWinner | interrupt/plic.c:181-211 | finds the winner, or 0 exactly when nothing can be claimed |
| PlicRegisters.PlicRegs.ClearPending | interrupt/plic.c:213-217 | removes exactly the winner from the pending set |
| PlicRegisters.PlicRegs.ClaimRead | interrupt/plic.c:177-224 | returns the winner and changes only its pending bit and the claim register; 0 and no change exactly when nothing can be claimed |
| InterruptProtocol.DecodeInvertsSourceIdIff | interrupt/plic.c:329-343 | the enhanced decoding gives back sender and type exactly for senders below 31 |
| InterruptProtocol.LegacyDecode | c0_master/c0_controller.c:1476-1487 | recognises exactly the ids that follow the base by a hart number, and answers that hart |
| InterruptProtocol.LegacyDecodeInvertsSourceIdIff | c0_master/c0_controller.c:1476-1487 | the legacy decoder names the sender of an encoded interrupt only for hart 0, type 0 |
| InterruptProtocol.LegacyDecodeMissesSupported | c0_master/c0_controller.c:1479-1487 | on the 8-hart platform it recognises no supported interrupt at all |
| SetupTable.BankAdvances | interrupt/plic.c:375-408 | one round of the innermost loop adds one source to one enable set and its type's priority to one register |
| SetupTable.ThresholdAdvances | interrupt/plic.c:368-369 | one round of the outer loop sets one threshold to 1 |
| SetupTable.SetupMovesOn | interrupt/plic.c:365-410 | skipping the target itself and running off the end of an inner loop change nothing |
| SetupTable.SetupEnables | interrupt/plic.c:364-410 | from any prior contents, a target's enables become the old ones joined with the supported ids of exactly the other harts |
| SetupTable.SetupLeavesTheRest | interrupt/plic.c:348-414 | setup touches no pending or claim state and no target outside the platform; every hart ends with threshold 1 |
| SetupTable.SetupPriorities | interrupt/plic.c:383-403 | each priority register gains its type's bits exactly when some hart of that bank was enabled for the source |
| SetupTable.SetupPriorityNumbers | interrupt/plic.c:383-403 | on zeroed registers the priorities are 7 for types 24 and 28, 5 for 23 and 26, 3 for 22 and 25, and 2 for the others |
| SetupTable.SetupIsIdempotent | interrupt/plic.c:348-414 | running setup twice leaves what running it once leaves |
| InterruptSystem.Platform.Select | interrupt/plic.c:269-286 | harts 0 and 1 get the C0C1 bank, 2 to 7 the NXY bank, and no other hart gets one |
| InterruptSystem.Platform.SetThreshold | interrupt/plic.c:313-321 | changes just that hart's threshold on that hart's bank |
| InterruptSystem.Platform.EnableInterrupt | interrupt/plic.c:289-300 | adds just that source for that hart on that hart's bank; an invalid id changes nothing |
| InterruptSystem.Platform.SetPriority | interrupt/plic.c:303-310 | adds the bits to just that source's priority on that hart's bank; an invalid id changes nothing |
| InterruptSystem.Platform.Setup | interrupt/plic.c:348-414 | the triple loop leaves exactly the state that the table theorems describe |
| InterruptSystem.Platform.TriggerTyped | interrupt/plic.c:419-470 | all error codes in order; on success the encoded id is raised on the C0C1 bank for targets 0 and 1, on the NXY bank for the others, and the other bank is as before |
| InterruptSystem.Platform.HandleTyped | c0_master/c0_controller.c:1610-1655 | completed_tasks goes up for every type but 24, 25, 26 and 28; active_tasks goes down for type 22 only, and only from above zero; type 26 raises the response and the others leave the banks alone |
| InterruptSystem.Platform.DecodeAndHandle | c0_master/c0_controller.c:1559-1581 | decoding and handling of either drain loop |
| InterruptSystem.Platform.ProcessInterrupts | c0_master/c0_controller.c:1541-1592 | each drain loop ends, performs a complete drain, and returns the number of interrupts it delivered |
| DrainProtocol.BacklogShrinks | c0_master/c0_controller.c:1555-1589 | from any register contents every claim shrinks the backlog, even when its handler raises a new interrupt, so the loop ends |
| DrainProtocol.StepClaimable | c0_master/c0_controller.c:1632-1636 | one round removes the claimed id, keeps the table, and can add only hart 0's own response id |
| DrainProtocol.StepKeepsOthers | interrupt/plic.c:111-122 | one round loses no pending interrupt outside hart 0's own word |
| DrainProtocol.SetupIsQuiet | interrupt/plic.c:371-372 | setup never enables hart 0 for its own ids, so the drain's assumption holds after it unless such an id was enabled and pending before |
| DrainProtocol.ReplayRemoves | c0_master/c0_controller.c:1555-1589 | after any part of a drain exactly the delivered interrupts have stopped being claimable |
| DrainProtocol.DrainDelivers | c0_master/c0_controller.c:1541-1592 | a complete drain delivers exactly what was claimable at its start |
| DrainProtocol.DrainSorts | c0_master/c0_controller.c:1541-1592 | draining is a priority sort: exactly the claimable interrupts, each once, highest priority first and lowest id first on a tie, none left, although handlers raise new ones |
| DrainProtocol.DeliveryOrderIsUnique | interrupt/plic.c:206-210 | the delivery order of a set of interrupts is unique |
| DrainProtocol.ReplayCounts | c0_master/c0_controller.c:1615-1654 | completed_tasks grows by one for each delivered interrupt of a counting type |
| DrainProtocol.DrainCounts | c0_master/c0_controller.c:1541-1592 | a complete drain adds to completed_tasks the number of claimable interrupts of a counting type: in the enhanced loop those of existing harts of every type but 24, 25, 26 and 28, in the legacy loop the ids from 32 on that stand for a hart |
| DrainProtocol.ReplayReports | c0_master/c0_controller.c:1615-1624 | after any part of an enhanced drain active_tasks is lower by the finished-task reports delivered, but not brought below zero; the legacy loop leaves it alone |
| DrainProtocol.DrainTakesActive | c0_master/c0_controller.c:1615-1624 | a complete enhanced drain with n claimable TASK_COMPLETE interrupts of existing harts leaves a count that was not positive, and otherwise the larger of 0 and the count less n; a legacy drain leaves it alone |
| InterruptTasks.DrainIsInterruptSteps | c0_master/c0_controller.c:1615-1654 | any part of a drain moves the dispatch's counters exactly as a run of the dispatch machine's interrupt steps, one per counted interrupt, and touches nothing else of the dispatch |
| InterruptTasks.DrainAddsIrqs | c0_master/c0_controller.c:1541-1592 | a complete drain is a run of as many interrupt steps as it finds claimable interrupts of a counting type, and the drops recorded are what active_tasks lost |
| DrainProtocol.LegacyDrainCountsNothing | c0_master/c0_controller.c:1473-1497 | on the 8-hart platform the legacy drain counts none of the supported interrupts |
| DrainProtocol.ReplayAnswers | c0_master/c0_controller.c:1632-1636 | once a sync request from any hart but 0 was delivered, the response stays pending for that hart |
| DrainProtocol.DrainAnswersSyncRequests | c0_master/c0_controller.c:1632-1636 | every sync request claimable at the start has its response pending after the drain |
| Delivery.EnabledForOthers | interrupt/plic.c:371-381 | after setup a sender's id is enabled for every other hart and not for the sender |
| Delivery.FreshTable | interrupt/plic.c:348-414 | on fresh banks setup makes hart t listen, on the C0C1 bank for t < 2 and on the NXY bank otherwise, to id 32 + 32 s + k for exactly the other harts s and types k = 20 and 22 to 28, with threshold 1, and to nothing on the other bank |
| Delivery.AboveThreshold | interrupt/plic.c:369-403 | after setup every supported id has a priority above every threshold of its bank |
| Delivery.TriggerIsDeliverable | interrupt/plic.c:419-470 | with setup's tables and whatever is pending or claimed, a supported trigger returns 1, becomes pending, decodes back to sender and type, and can be claimed by exactly the harts of that bank other than the sender |
| Delivery.ClaimableByOthers | interrupt/plic.c:188-211 | with setup's tables a pending supported id is enabled for, and above the threshold of, exactly the harts of its bank other than its sender |
| Delivery.OnlyTargetClaimsIff | interrupt/plic.c:329-343 | with setup's tables and anything pending, only the target can claim exactly when its bank serves no third hart |
| Delivery.TriggerCodes | interrupt/plic.c:419-470 | -1 for a hart that does not exist, -2 for a hart to itself, -3 for an id that is 0 or above 1023, -4 for a target from 8 on, in this order, and otherwise 1; refused triggers change nothing, and an accepted one replaces just the id's word of the target's bank |
| Delivery.TriggerStaysOnBank | interrupt/plic.c:269-286 | a trigger to hart 0 or 1 leaves the NXY bank alone and one to any other hart the C0C1 bank |
| Delivery.ClaimantsOnEightHarts | interrupt/plic.c:269-286 | on the 8-hart platform an interrupt for hart 0 or 1 can be claimed by those of harts 0 and 1, one for harts 2 to 7 by those of harts 2 to 7, that did not send it; only the target can take it exactly between harts 0 and 1 |
| Delivery.WrongHartCanClaim | interrupt/plic.c:329-343 | a trigger from hart 2 to hart 0 can be taken by hart 1 |
| Delivery.PendingSurvivesTriggerIff | interrupt/plic.c:111-122 | a pending interrupt survives another successful trigger unless its own sender raises another type on that bank |
| Delivery.ClaimIsExclusive | interrupt/plic.c:213-221 | a claim takes its interrupt from every hart and takes nothing else |
| Delivery.SecondTriggerDropsFirst | interrupt/plic.c:119-119 | hart 1 reports a finished task and then an error to hart 0: the first report is lost unclaimed |
| Delivery.DisablingOneDisablesAll | interrupt/plic.c:173-173 | disabling one of hart 1's eight types for hart 0 disables them all |
| DeliveryRuns.PendingIff | interrupt/plic.c:111-122 | after any history of triggers, claims and completions an id is pending exactly when it was raised, or pending from the start, and neither claimed nor overwritten since |
| DeliveryRuns.DislodgesIff | interrupt/plic.c:329-343 | what overwrites it is exactly a trigger of another type by the same sender on that bank |
| DeliveryRuns.OneClaimPerRaise | interrupt/plic.c:177-224 | in any history claims never outnumber raises: each raise is returned by at most one claim of any hart |
| DeliveryRuns.ClaimedOrPending | interrupt/plic.c:177-224 | and by exactly one, or it is still pending, unless overwritten or raised again |
| DeliveryRuns.TakersAreOthers | interrupt/plic.c:371-381 | over any history with setup's tables, the sender never claims its own interrupt |
| DeliveryRuns.DeliveredOnce | c0_master/c0_controller.c:1564-1570 | end to end over any history after a trigger: pending and claimable by exactly the other harts of the bank until claimed or overwritten, returned at most once, and decoded to sender and type |
| DeliveryRuns.DrainStepIsHistory | c0_master/c0_controller.c:1555-1589 | one round of the drain loop changes the banks as a claim, a response and a completion do, so the history theorems cover drains |
| DeliveryRuns.SetUpIsQuiet | interrupt/plic.c:371-372 | with setup's tables the drain's assumption about hart 0's own ids holds, whatever is pending |
| DeliveryRuns.DrainSortsAfterSetup | c0_master/c0_controller.c:1541-1655 | from any state with setup's tables the enhanced drain delivers what is claimable in priority order, leaves nothing, and answers every claimable sync request |
| TaskInvariant.StepKeepsInvariant | c0_master/c0_controller.c:665-751 | every step of C0, of every tile and of an interrupt handler keeps the dispatch invariant: one home per queued id, one holder per taken slot, counters matching histories |
| TaskInvariant.InvariantHolds | c0_master/c0_controller.c:988-1155 | the invariant holds in every state of every interleaving |
| TaskInvariant.QuiescentStart | c0_master/c0_controller.c:936-946 | the reset with no task in flight establishes it |
| TaskTheorems.AtMostOnce | c0_master/c0_controller.c:713-751 | from a reset with no task in flight, in every interleaving, full store or not, a queued id waits in exactly one slot or was taken exactly once, never both, never neither |
| TaskResets.NeverTwice | c0_master/c0_controller.c:934-951 | from any reset, whatever the tiles were doing, no id is ever in more than one place: live in one slot or taken once |
| TaskResets.StragglerLosesTask | c0_master/c0_controller.c:1134-1138 | if a tile has not marked its slot when the store is cleared, an interrupt-free run queues a task that no continuation ever takes |
| TaskResets.LostForEver | c0_master/c0_controller.c:1004-1007 | a queued task that is neither live nor taken stays so in every continuation |
| TaskResets.ExactlyOnceIff | c0_master/c0_controller.c:934-938 | every queued id is in exactly one place in every interleaving exactly when at the reset every tile is polling or past its mark |
| TaskCompletion.EveryRunCompletes | c0_master/c0_controller.c:152-239 | from every such reset, in every interleaving, tile steps and remaining work add up to the budget, used up exactly when everything queued was taken and all tiles are done; until then some tile can move |
| TaskCompletion.FairRunCompletes | c0_master/c0_controller.c:152-239 | from every such reset, every fair schedule takes and finishes everything queued |
| TaskCompletion.CompletionIff | c0_master/c0_controller.c:934-938 | everything queued can be completed from every reachable state exactly when at the reset every tile is polling or past its mark |
| TaskTheorems.Conservation | c0_master/c0_controller.c:727-732 | active_tasks + completed_tasks equals the queue calls counted so far, off by exactly the interrupts counted without a decrement |
| TaskTheorems.WaitIsSafe | c0_master/c0_controller.c:753-790 | without interrupt increments the wait returns only when every queued task is finished, a result is there for it, and nothing is active |
| TaskTheorems.ResultIsFinal | c0_master/c0_controller.c:1060-1061 | the stored result of a finished task is the same in every continuation |
| TaskTheorems.WaitedResultsAreFinal | c0_master/c0_controller.c:964-976 | what C0 reads when the wait returns is what it would read at any later moment |
| TaskTheorems.WaitMissesAtMostIrqs | c0_master/c0_controller.c:1648-1652 | each interrupt increment can hide at most one unfinished task from the wait |
| TaskResults.ResultIsTheValueReturned | c0_master/c0_controller.c:1057-1061 | from a quiet reset, in every interleaving, at most one value is ever stored through a task's result pointer, a result is there exactly when one was, and it is that value |
| TaskResults.ReturnedValueIsRead | c0_master/c0_controller.c:1057-1061 | the value a test returned on a tile is, in every later state of the run, the result of the task that tile then held |
| TaskResults.WaitReadsReturnedValues | c0_master/c0_controller.c:964-976 | when the wait returns without interrupt increments, for each queued task exactly one value was stored, and C0 reads it |
| TaskResults.StoredOnce | c0_master/c0_controller.c:1060-1061 | over any run, from any state of the invariant, a result that is there is never stored again |
| TaskResults.ReachableFinishedEndsWait | c0_master/c0_controller.c:753-790 | once everything queued is finished the wait returns, whatever interrupts have added |
| TaskResults.FairScheduleEndsWait | c0_master/c0_controller.c:753-790 | under every fair schedule the wait returns, after as many rounds as there is work |
| TaskRuns.StragglerBreaksWait | c0_master/c0_controller.c:934-946 | with a task in flight at the reset, some run lets the wait return before its task has a result |
| TaskRuns.IrqBreaksWait | c0_master/c0_controller.c:1648-1652 | one interrupt counted as a completion does the same from any start |
| TaskRuns.WaitSafeIffQuiescent | c0_master/c0_controller.c:753-790 | the wait is safe in every interrupt-free run exactly when no task was in flight at the reset |
| TaskRuns.ActiveCanGoNegative | c0_master/c0_controller.c:727-732 | some run brings active_tasks to -1 |
| TaskTheorems.ActiveBelowZeroIff | c0_master/c0_controller.c:727-732 | active_tasks is at least -1 less the decrements by handlers, and below zero exactly when the unfinished tasks are fewer than those decrements and the one assignment not counted yet |
| TaskTheorems.QuietActiveBelowZeroIff | c0_master/c0_controller.c:1147-1151 | without interrupts it is at least -1, and -1 exactly between an assignment and its count with everything queued finished |
| TaskProgress.TileCanMove | c0_master/c0_controller.c:988-1021 | while a queued task is unfinished some tile has a step |
| TaskProgress.NoWorkIffAllFinished | c0_master/c0_controller.c:1128-1155 | the work measure is zero exactly when every queued task is finished |
| TaskProgress.EveryInterleavingCompletes | c0_master/c0_controller.c:152-239 | in every interleaving of C0, tiles and handlers, the tiles' steps and the work left add up to the initial work and five steps per assignment; the budget is used up exactly when everything queued is finished, and until then some tile can move |
| TaskProgress.EveryScheduleCompletes | c0_master/c0_controller.c:152-239 | while only tiles move, a schedule is at most as long as the work, and that long exactly when all is finished |
| TaskProgress.ReadyTileStaysReady | c0_master/c0_controller.c:738-748 | no step of C0, another tile or a handler takes a ready tile's next step away, although the copy moves tasks between slots |
| TaskProgress.FairScheduleCompletes | c0_master/c0_controller.c:152-239 | under any fair schedule everything queued completes, within as many rounds as there is work after the last assignment, whatever else C0 and handlers do |
| TaskOrder.NextTileFollows | c0_master/c0_controller.c:719-727 | next_tile follows the round-robin sequence in every interleaving |
| TaskOrder.CreateSucceedsIff | c0_master/c0_controller.c:679-688 | with create and queue alternating, creation succeeds exactly while twice the queued tasks are fewer than the slots |
| TaskOrder.ThirtyTwoTasksFit | c0_master/c0_controller.c:679-688 | with 64 slots exactly 32 tasks fit |
| TaskOrder.TakesOldest | c0_master/c0_controller.c:1000-1015 | among the tasks waiting for it a tile takes the oldest |
| TaskSchedule.StaysAtTile | c0_master/c0_controller.c:713-751 | no step moves a queued task to another tile, the copy to a new slot included |
| TaskSchedule.PlacedHolds | c0_master/c0_controller.c:719-727 | in every interleaving the k-th queued task waits for, runs on or ran on the k-th tile of the round robin |
| TaskSchedule.SharesInEveryRun | c0_master/c0_controller.c:719-727 | of n tasks queued in any run every tile has got n / tiles, the first n % tiles of the round one more, and tile 0 none |
| TaskSchedule.QueuedInIdOrder | c0_master/c0_controller.c:713-751 | with create and queue alternating, a task being queued has a larger id than everything queued before it |
| TaskSchedule.TakesInQueueOrder | c0_master/c0_controller.c:1000-1015 | the moment a tile takes a task, all that was queued for that tile before it has been taken |
| TaskSchedule.TilesTakeInQueueOrder | c0_master/c0_controller.c:988-1021 | over every alternating run ids are queued in increasing order and each tile takes its tasks in queue order |
| TaskStore.Dispatcher.constructor | platform_init/system_setup.c:109-112 | the store and counters of a new platform |
| TaskStore.Dispatcher.Reset | c0_master/c0_controller.c:936-946 | the resets clear every slot, both counters and the results |
| TaskStore.Dispatcher.Create | c0_master/c0_controller.c:665-711 | takes the next id in any case; fails exactly when the store is full, changing nothing else, and otherwise writes an unassigned task with that id to the next slot; these are the create steps of the protocol |
| TaskStore.Dispatcher.Queue | c0_master/c0_controller.c:713-751 | assigns the next tile of 1 to the last, counts the task as active, copies it to the next slot and marks the original taken and of no tile, or only assigns it when the store is full; these are the assign, count and copy steps |
| TaskStore.Dispatcher.GetNextTask | c0_master/c0_controller.c:988-1021 | takes the first slot that waits for the tile, marking it taken and of no tile, or changes nothing when there is none; this is the take step, possible exactly then |
| TaskStore.Dispatcher.Complete | c0_master/c0_controller.c:1122-1155 | the slot gets the value and is completed, the value is what the result pointer of its task then points to, and the counters move by one; these are the four steps after the test |
| TaskStore.Dispatcher.PollWait | c0_master/c0_controller.c:753-790 | -1 at once for a count that is not positive; otherwise the wait ends, with 0, exactly when completed_tasks has reached the count, which is the protocol's end of the wait |
| LockOrder.NoDeadlock | c0_master/c0_controller.c:626-650 | threads that take locks in increasing order are never all blocked |
| LockOrder.EveryScheduleFinishes | c0_master/c0_controller.c:626-650 | every schedule of such threads is bounded, and one that cannot go on has finished everything |
| LockOrder.RoundOrdered | c0_master/c0_controller.c:186-227 | one round of a tile's loop, with any HAL calls inside the print session, takes its locks in the order print, stats, hal, destination |
| LockOrder.CallOrdered | hal_tests/hal_reference.c:81-141 | a HAL call takes hal_mutex before a destination lock and releases both, and a banner takes only its own lock |
| LockOrder.TileOrdered | c0_master/c0_controller.c:152-239 | so does any number of rounds |
| LockOrder.ThreadOrdered | c0_master/c0_controller.c:152-239 | so does a tile thread with its start-up sections |
| LockOrder.C0Ordered | c0_master/c0_controller.c:331-380 | so does any sequence of C0's actions: tests, printing, supervision, resets, creating, queueing, waiting, counting handlers and the report |
| LockOrder.PlatformNeverDeadlocks | mesh_noc/mesh_router.c:101-130 | C0 and any number of tiles doing any amount of work never deadlock and finish under every schedule |
| LockOrder.OneDestinationAtATime | hal_tests/hal_reference.c:85-137 | however C0 and the tiles are scheduled, at most one destination lock is held at a time, by the thread holding hal_mutex |
| AddressMap.Locate | platform_init/address_manager.c:19-84 | every pointer the lookup answers lies inside its buffer |
| AddressMap.LocatedIffValid | platform_init/address_manager.c:122-162 | an address has memory behind it exactly when its region is valid, the interrupt banks aside |
| AddressMap.LocateInjective | platform_init/address_manager.c:19-84 | two addresses never share a byte |
| AddressMap.DmaRegistersAreDlm1 | platform_init/address_manager.c:31-47 | a tile's DMA register addresses are stored in its DLM1 buffer |
| AddressMap.DmaRegBufferUnreachable | platform_init/system_setup.c:53-58 | no address reaches a tile's separate register buffer |
| AddressMap.RoomIsOneInstance | platform_init/address_manager.c:19-84 | a range lies in one buffer at consecutive offsets exactly when it fits the window of its first address |
| AddressMap.AcceptedIsOneInstanceIff | platform_init/address_manager.c:109-120 | an accepted range lies in one buffer exactly when it has at most 0xE0001 bytes, counting 64-bit wrap-around |
| AddressMap.SafeSizeIsSharp | platform_init/address_manager.c:115-119 | 0xE0001 is the largest bound under which the range check is sound |
| AddressWindows.KindIff | platform_init/address_manager.c:122-162 | an address is of a kind exactly when it lies in one of the windows of that kind in the memory map: 32 KiB and 128 KiB per tile, 256 KiB per DMEM, 64 KiB of the C0 master |
| AddressWindows.AcceptedIffInWindow | platform_init/address_manager.c:109-120 | up to 0xE0001 bytes, a range is accepted exactly when it is not empty and lies in one window |
| AddressWindows.WholeWindowsAccepted | generated/mem_map.h:47-49 | every window is accepted whole |
| AddressWindows.WrappedRangeAccepted | platform_init/address_manager.c:115-119 | a range that wraps round to its own window is accepted |
| AddressWindows.WindowsAreStored | platform_init/address_manager.c:19-84 | each window of the map is stored at consecutive offsets of its own buffer, and the interrupt windows lead to the banks |
| PlatformMemory.Memory.constructor | platform_init/system_setup.c:26-104 | setup builds an address map whose flat memory is all zero |
| PlatformMemory.Memory.GetTileId | platform_init/address_manager.c:164-172 | the loop answers the tile, or -1 |
| PlatformMemory.Memory.GetDmemId | platform_init/address_manager.c:174-186 | the loop answers the DMEM, or -1 |
| PlatformMemory.Memory.GetRegion | platform_init/address_manager.c:122-162 | the loops answer the region; the DMA register case is never reached |
| PlatformMemory.Memory.ValidateAddress | platform_init/address_manager.c:109-120 | accepts exactly the non-empty ranges whose two ends are of one valid kind |
| PlatformMemory.Memory.AddrToPtr | platform_init/address_manager.c:19-84 | the five loops answer the location, for every address |
| PlatformMemory.SplicedIsWritten | platform_init/address_manager.c:19-84 | writing into one buffer is writing to the flat memory at the addresses it stands for, and nowhere else |
| PlatformMemory.Memory.MemoryRead | hal_tests/hal_reference.c:223-245 | returns the bytes of the flat memory, or -1 exactly for refused ranges |
| PlatformMemory.Memory.MemoryWrite | hal_tests/hal_reference.c:247-269 | writes those bytes of the flat memory and no others |
| PlatformMemory.Memory.MemoryFill | hal_tests/hal_reference.c:271-296 | writes the running pattern modulo 256 and nothing else |
| PlatformMemory.Memory.MemorySet | hal_tests/hal_reference.c:298-320 | writes the constant and nothing else |
| PlatformMemory.Memory.CpuLocalMove | hal_tests/hal_reference.c:32-62 | copies the old source to the destination, overlapping or not, and nothing else |
| PlatformMemory.Memory.DmemCopy | dmem/dmem_controller.c:76-97 | copies exactly when both ranges are accepted DMEM ranges, and changes nothing otherwise |
| PlatformMemory.Memory.DmemRead | dmem/dmem_controller.c:30-51 | reads at base plus offset modulo 2^64, wherever that leads |
| PlatformMemory.Memory.DmemWrite | dmem/dmem_controller.c:53-74 | writes there, and nowhere else |
| FlatMemory.ReadAfterWrite | hal_tests/hal_reference.c:223-269 | reading back gives what was written, and a disjoint range reads as before |
| FlatMemory.CopyAt | hal_tests/hal_reference.c:57-57 | what a copy leaves at each address |
| FlatMemory.CopiesCommute | mesh_noc/mesh_router.c:117-117 | copies commute when neither writes what the other reads or writes |
| NocRouter.SameLockIff | mesh_noc/mesh_router.c:44-58 | two destinations share a lock exactly when they are in the same tile or the same DMEM |
| NocRouter.LockNumbers | mesh_noc/mesh_router.c:44-58 | tile t has lock t, DMEM j lock 8 + j, and no other address has one |
| NocRouter.MovesIff | mesh_noc/mesh_router.c:84-90 | a packet is moved exactly when it is a non-empty DMA packet whose two addresses are not 0 and lie in a window or in an interrupt controller's |
| NocRouter.Router.GetDestinationLockIndex | mesh_noc/mesh_router.c:44-58 | computes that lock, or -1 |
| NocRouter.Router.InitArbitration | mesh_noc/mesh_router.c:32-41 | leaves counters that were never used as they are |
| NocRouter.Router.SendPacket | mesh_noc/mesh_router.c:60-142 | moves exactly the packet's bytes and advances exactly its lock's counter by one, or does nothing |
| NocRouter.Router.RemoteTransfer | hal_tests/hal_reference.c:81-141 | reports the size and copies size modulo 65536 bytes exactly when the transfer is allowed, and otherwise changes nothing |
| NocRouter.RemoteAllowedIff | hal_tests/hal_reference.c:92-109 | of ranges of a usable size, exactly the non-empty ones that lead from a tile's 512-bit buffer to a DMEM or back, each range inside one window, are allowed |
| NocRouter.RemoteBothWays | hal_tests/hal_reference.c:105-106 | every tile and every DMEM, in both directions |
| NocRouter.RemoteTransferHonestIff | mesh_noc/noc_packet.h:18-18 | the reported bytes were all moved, whatever memory held, exactly when the size is below 65536 |
| NocRouter.AccessesAreConsecutive | mesh_noc/mesh_router.c:104-107 | the access numbers one lock hands out are consecutive over every sequence of packets |
| NocRouter.LocksSeparateWrites | mesh_noc/mesh_router.c:44-58 | packets under different locks never write the same byte |
| NocRouter.DifferentLocksCommuteIff | mesh_noc/mesh_router.c:84-138 | packets under different locks commute on every memory exactly when neither writes what the other reads |
| NocRouter.WholePacketIsLost | hal_tests/hal_reference.c:130-139 | 64 KiB from tile 0 to DMEM 0 is allowed and reported as moved, and nothing moves |
| NocRouter.LocksDoNotOrderReads | mesh_noc/mesh_router.c:101-130 | two packets under locks 0 and 9 whose order shows |
| DmaRegisters.SetThenGet | hal/dma512/rvv_dmac512.h:114-122 | a field reads back what was stored, the bits on either side stay, and the word stays a word |
| DmaRegisters.HigherFieldKept | hal/dma512/rvv_dmac512.h:114-122 | storing a field leaves every field above it |
| DmaRegisters.LowerFieldKept | hal/dma512/rvv_dmac512.h:207-208 | storing a field leaves every field below it |
| DmaRegisters.StoreThenLoad | hal/dma512/rvv_dmac512.h:66-85 | bytes stored for a register read back as its value |
| DmaRegisters.LoadThenStore | hal/dma512/rvv_dmac512.h:66-85 | and the bytes are determined by the value |
| DmaRegisters.PokeIsPut | hal/dma512/rvv_dmac512.h:66-85 | a register store changes that register and no other byte of memory |
| DmaRegisters.OverlaidIsUnique | hal/dma512/rvv_dmac512.h:66-85 | register values and the rest of memory determine the whole memory |
| DmaEngine.StepsStaySized | hal/dma512/hal_dmac512.c:79-142 | every engine step leaves registers that fit their width |
| DmaEngine.CompletedReads | hal/dma512/hal_dmac512.c:216-248 | after a transfer software reads not busy, interrupt set, transfer enabled, and the configured addresses, count, beats and mode |
| DmaTransfer.TransferIsDetermined | hal/dma512/hal_dmac512.c:114-142 | a transfer has exactly one outcome |
| DmaTransfer.CompletedAt | hal/dma512/hal_dmac512.c:133-137 | completion changes two bits of memory and nothing else |
| DmaTransfer.ArmedAt | hal/dma512/hal_dmac512.c:79-105 | what configuring and starting leave in every byte of memory |
| DmaTheorems.TransferAt | hal/dma512/hal_dmac512.c:216-248 | the whole effect of a transfer on every byte, wherever ranges and registers lie |
| DmaTheorems.TransferExists | hal/dma512/hal_dmac512.c:216-248 | every legal transfer has an outcome |
| DmaTheorems.TransferIsCorrect | hal/dma512/hal_dmac512.c:216-248 | clear of the registers, a transfer delivers the old source, changes no other byte but the registers, and leaves them armed and completed |
| DmaTheorems.DeliversWhenClear | hal/dma512/hal_dmac512.c:114-142 | a transfer delivers its source when both ranges avoid the register bytes it changes |
| DmaReset.ResetAt | hal/dma512/hal_dmac512.c:195-201 | what a reset leaves in every byte of memory: the reset bit clear, status and interrupt 0, everything else as before |
| DmaReset.ResetBitStaysClear | hal/dma512/hal_dmac512.c:195-201 | a transfer after a reset leaves the reset bit clear unless it copies over it |
| DmaReset.BusyBit | hal/dma512/rvv_dmac512.h:133-136 | the busy bit is the lowest bit of the second status byte |
| DmaReset.RefusedStaysBusy | hal/dma512/hal_dmac512.c:138-141 | a setup that is not accepted leaves that bit set and the transfer enabled |
| TileDma.ReadRegister | hal/dma512/rvv_dmac512.h:66-85 | a register read through a handle is the register at that tile's block |
| TileDma.WriteRegister | hal/dma512/rvv_dmac512.h:66-85 | a register written through a handle is that one register of that tile |
| TileDma.SetField | hal/dma512/rvv_dmac512.h:114-117 | a SET_ macro replaces one field of one register |
| TileDma.Driver.constructor | tile/tile_dma.c:7-8 | no handle is initialised at the start |
| TileDma.Driver.ConfigureChannel | hal/dma512/hal_dmac512.c:79-105 | exactly the control, address and count registers take the handle's setup |
| TileDma.Driver.StartTransfers | hal/dma512/hal_dmac512.c:114-142 | an accepted setup is copied and completed; otherwise nothing is copied and bit 8 of the tile's status register ends as 1 |
| TileDma.Driver.IsBusy | hal/dma512/hal_dmac512.c:151-154 | true exactly when bit 8 of the tile's status register is 1 |
| TileDma.Driver.Transfer | hal/dma512/hal_dmac512.c:216-248 | with the beats and mode its handle holds, reports the size and performs a whole transfer exactly for accepted sizes up to 24 bits; otherwise changes nothing |
| TileDma.Driver.InitTile | hal/dma512/hal_dmac512.c:165-204 | attaches the handle to the tile's block with beats 2, mode 0 and zeros; in memory, byte by byte, the reset bit is cleared, status and interrupt become 0, and nothing else changes |
| TileDma.Driver.TileInit | tile/tile_dma.c:16-33 | does so only the first time |
| TileDma.Driver.GetHandle | tile/tile_dma.c:38-53 | answers an attached handle for every tile, initialising it on first use and leaving all other handles alone; -1 otherwise |
| TileDma.Driver.LocalTransfer | tile/tile_dma.c:58-78 | succeeds exactly for accepted ranges of at most 0xFFFFFF bytes within the one tile; memory ends as one whole transfer leaves it, after a reset on the tile's first use, whose bit stays clear; clear of the registers, the destination holds the old source byte for byte, nothing else changes but them, and the engine is idle with the interrupt set |
| TileDma.TransferKeepsPromise | hal/dma512/hal_dmac512.c:216-248 | a transfer clear of the registers keeps that promise also when register stores came before it |
| DmaOverlap.DeliversIff | hal/dma512/hal_dmac512.c:114-142 | an accepted transfer delivers its source on every memory of the platform exactly when the source avoids the register bytes rewritten before the copy and the destination the two touched after it |
| DmaOverlap.RegisterOverlapLosesData | tile/tile_dma.c:58-78 | thirty-two bytes moved onto tile 0's registers: accepted by the driver and not delivered |
| TaskQueue.StepRefines | c0_master/c0_controller.c:75-125 | push appends to and pop removes the first of the queued tasks |
| TaskQueue.RunRefines | c0_master/c0_controller.c:75-125 | over every run the ring can do exactly what a bounded FIFO sequence can, with the same contents |
| TaskQueue.PoppedSlotKept | c0_master/c0_controller.c:111-113 | the slot a pop returns keeps its task through the next capacity - 1 - c pushes, c being the tasks left behind |
| TaskQueue.PoppedSlotOverwritten | c0_master/c0_controller.c:86-87 | the push after those overwrites it |
| TaskQueue.Queue.constructor | c0_master/c0_controller.c:23-55 | a new queue is empty |
| TaskQueue.Queue.Push | c0_master/c0_controller.c:75-99 | appends, or waits exactly when full |
| TaskQueue.Queue.Pop | c0_master/c0_controller.c:101-125 | removes the oldest and names its slot, or waits exactly when empty |
| TaskQueue.Queue.IsEmpty | c0_master/c0_controller.c:127-135 | true exactly when no task is queued |

## Left out

- Printing, banners, `usleep` and clock arithmetic: they affect nothing but timing. `print_session_lock` is kept as a lock.
- Test bodies behind the HAL: a test is an opaque step that returns a value and may make HAL calls.
- Triggers by tiles in the middle of a drain: the sorting theorems take a drain as running alone, with only its own handlers raising interrupts. `DeliveryRuns` covers interleaved triggers and claims, but not the order of delivery.
- The parallel task tests, `tile_signal_*` and `PLIC_trigger_interrupt`: they are callers of the modelled operations. That `tile_send_interrupt_to_c0` treats the 1 of a successful trigger as a failure is not modelled.
- Interrupt-controller instances 1 and 2, the NULL bank (error -5), and priority, feature and trigger-type accessors.
- NocRouter.Router.SendPacket: not for packets to or from the interrupt controllers' windows; `AddrToPtr` answers those addresses, but the banks behind them are modelled as registers, not as bytes.
- DmaRegisters.SetThenGet: for values that fit their field, which is all the driver stores; a wider value would spill into the bits above.
- TileDma.SetField: likewise.
- Threads that a DMEM test starts and joins, and the joins at shutdown.
- Task ids and counters are unbounded integers: overflow of the C `int` is not modelled.
- InterruptSystem.Platform.Setup: up to eight harts only, because `plic_select` answers NULL for any further hart and the register accessors dereference it.
- Structure assignment in `queue_task_to_available_tile` is one step; in C a tile's unlocked write to the original's result could land between two of its words.
- A task's parameters are left out, and `result_ptr` is a map from task ids to stored results; an id without a result stands for the initial 0 of C0's table.
- Argument checks against NULL.
- Waiting on condition variables in the task queue: `Push` and `Pop` report `waits` instead of blocking.
- `dmem_write_reg` and `dmem_read_reg`: they check only the region of the first byte and add nothing to `DmemWrite`.
- Mesh coordinates and hop counts, `ptr_to_addr`, `register_memory_region`, and the commented-out NoC interrupt queue.
- Platforms of the wrong shape: the address map is fixed at eight tiles and eight DMEMs, as in `generated/mem_map.h`.
