# Coreblocks: a verified model of the core's stateful logic

Coreblocks is an out-of-order RISC-V core. This project models the parts of it whose correctness is
hardest to see and proves what they promise, for every width, size and run:

- **Speculative renaming.** A step machine (`RenameCore`) with unbounded tags covers register
  allocation, tagging, renaming, reservation stations, announcement, group retirement, trap flush
  and rollback. The checkpoint table's registers (`CheckpointRat`: tag numbers modulo 2^tag_bits,
  bit masks, the checkpoint ring, the restore pipeline) refine the specification table
  (`CratSpec`), clock cycle by clock cycle (`CratRefinement`, `CoreCycle`). `CratClock` derives the
  same cycle from register assignments that all read the old values, and `CratHistory` shows that
  these registers follow every history of the core. `CycleTotal` shows that no cycle the
  registers allow is missing from the histories, `RenameTheorems` states what holds in every history
  from reset, `InOrder` that the architectural registers are always those of an in-order
  machine, `ProgramPath` that what commits is the program's own path however the frontend guessed,
  `TrapLaws` that exactly the live instructions before the first announced fault commit, `GroupLaws`
  that instructions pass in fetch order and the current path's come to life, `Progress` that the core
  never gets stuck, and `RenameWitness` exhibits a history. `CoreStructs` and `RetirementClock` clock
  the structures around it, and `RetirementHistory` has the retirement unit follow the core.
- **Virtual memory.** The walker (`Walker`) against the recursive algorithm of section 4.3.2 of the
  RISC-V Privileged Architecture 20211203 (`PageTable`); the TLB (`Tlb`, `TlbHardware`), both clocked
  together (`TlbPath`), and the translator (`Translator`) in front of them, with SFENCE.VMA (section
  4.2.1) and changing page tables; which accesses succeed and where they go, in entry bits and page
  numbers (`TranslationLaws`), and whom the TLB answers (`TlbRequests`); PMP block matching
  (`Pmp`, section 3.7.1).
- **Fetch.** Parity pointers (`FtqPointers`), the fetch target queue with two-bit generations
  (`FetchTargetQueue`, `FtqHardware`, `FtqLaws`), block-parallel instruction parsing (`FetchParse`).
- **Instruction cache.** Cache (`ICache`), refiller (`Refiller`), both over a bus
  that reads a changing flat memory (`CachePath`), tree pseudo-LRU (`Plru`).
- **Arithmetic.** Long division (`LongDivision`, `DivUnit`; section 7.2 of the RISC-V Unprivileged
  ISA 20191213) and carry-less multiplication (`CarrylessProduct`, `Zbc`; Zbc of the RISC-V
  Bit-Manipulation extension 1.0.0).

`Cyclic`, `Powers`, `BitMask` and `Wrappers` hold the arithmetic, mask and option vocabulary.

Where the source keeps registers, the model has a class whose methods update fields or arrays, tied
by `ensures` to functions of the old state; combinational logic is functions and lemmas. A clock
cycle in which several methods run is one step that reads the old registers, or a fixed sequence of
steps whose order is the one in which the source's assignments win.

## What the model assumes of its surroundings

- Transactron library parts are taken by their meaning: FIFO a sequence, memory bank an array,
  free list a set, forwarder an optional value. A conditional checkpoint that finds the ring full
  waits.
- The frontend: a group allocated while a rollback is pending carries the tag of the latest
  rollback, or none.
- Each instruction is announced once; a rollback is requested by an unfinished instruction whose
  tag owns a live checkpoint; nothing is fetched while retirement is in TRAP_RESUME.
- For `Progress` only: a queued instruction finds a reservation station row, and an executing one
  finishes.
- The memory bus answers reads in the order of their requests, each with an error or a value the
  word has had since it was asked for.
- For `ProgramPath` only: an instruction finishes without an exception only when the next live
  instruction, if there is one, is its true successor on the operands it executed with, so that a
  wrong guess is rolled back first; and a live group begins where the path is known to go on. An
  operation's code stands for its address and the instruction there.
- Every change of page tables is recorded: a changed last entry of a walk at its level, a changed
  table pointer at all levels, a changed global mapping as global. A page with a recorded change not
  covered by an issued fence carries no promise. Mappings marked global agree in all address spaces,
  in each version of the tables.
- The fetch target queue's commits and backend redirects name blocks that have left the fetch unit,
  and an exception stall ends only after a backend redirect.
- Two broadcasts or register writes of one cycle never name the same non-zero register (the source
  logs an error otherwise).

## What turned out not to hold as it stands

- Clearing the division unit while a computation is in flight leaves its parameters queued, so
  later results come out under them (`DivUnit.ClearMispairs`); `DivUnit.Unit.Clock` states exactly
  when the pairing survives. Nothing in the core calls `clear`.
- The reorder buffer stores purity bits only for as many new entries as retirement is wide;
  `CoreStructs.ReorderBuffer.Put` states which, `CoreStructs.PurityLost` shows one lost.
- An empty top-of-range PMP entry with both bounds inside the checked block makes the block look
  non-uniform when it is the first entry touching it (`Pmp.InvertedRejects`; exactly then, by
  `Pmp.UniformIsUniform`).
- A fence for one address space does not always cover a changed table pointer of that space: a walk
  under way may find an entry marked global in the abandoned table, which such a fence leaves
  (`TlbWitness.OneSpaceIsNotEnough`). Exactly these finds are charged by the read (`Tlb.Torn`), for
  exactly the pages that share the entry and no longer use the table, and only where no fence
  already waiting removes them (`Tlb.Unsettled`). A fence for all spaces and addresses therefore
  always suffices until the tables change again (`Translator.FullFenceIsInvisible`), and a fence for
  one space does where no readable entry is marked global (`Translator.OneSpaceIsInvisible`).
- The description of the refill in the TLB speaks of the first invalid entry; the code takes the
  last one, and the model follows the code (`TlbHardware.FullyAssociativeTlb.Candidate`).

## Model

| member | source | states |
|---|---|---|
| `RenameTheorems.SpeculativeTable` | coreblocks/core_structs/crat.py:175-250 | In every history of cycles, with no restore pending and no trap in progress, the FRAT register equals the RRAT overlaid in program order with the in-flight renames whose tag bit is set. |
| `RenameTheorems.RollbackRestoresCut` | coreblocks/core_structs/crat.py:340-393 | Whatever retired since, the snapshot found through tag_map for a legal rollback tag is the RRAT overlaid with the live instructions up to that tag. |
| `RenameTheorems.CheckpointRing` | coreblocks/core_structs/crat.py:139-165 | The tags both active and checkpointed are exactly the live ring in increasing order; the i-th owns slot tail+i modulo the ring; head and full flag agree with their number. |
| `RenameTheorems.TagWindow` | coreblocks/core_structs/crat.py:340-363 | Unallocated tags are never active, and a rollback to t clears exactly the tags above t of the window, across wrap-around. |
| `RenameTheorems.TagRebuilt` | coreblocks/backend/retirement.py:199-218 | last_retired_tag is the tag tail, and adding up one-bit increments in the reorder buffer from it gives the number of every instruction's issued tag. |
| `RenameTheorems.RegistersPartitioned` | coreblocks/backend/retirement.py:129-169 | Every physical register but 0 is owned exactly once by the free set, the RRAT, the reorder buffer or the groups before it, in every history. |
| `InOrder.InOrderEquivalence` | coreblocks/backend/retirement.py:313-337 | For every semantics of operations on two operands and every interleaving of steps, rollbacks and traps included, RRAT and register file together hold what an in-order machine holds after the committed operations. |
| `InOrder.InOrderHistory` | coreblocks/backend/retirement.py:238-412 | The same for every history of clock cycles with the checkpoint table's registers. |
| `InOrder.StepInOrder` | coreblocks/scheduler/scheduler.py:415-452 | Each step keeps every known live result equal to the in-order machine's and moves the architectural registers by exactly the operations it commits. |
| `InOrder.SourceValue` | coreblocks/scheduler/scheduler.py:436-452 | A valid source of a live instruction holds the value the in-order machine would read. |
| `InOrder.CommitMatches` | coreblocks/backend/retirement.py:313-346 | After any retired prefix, trap or not, the RRAT's registers hold the in-order values of the committed operations. |
| `InOrder.ResultsCut` | coreblocks/core_structs/crat.py:345-363 | Deactivating the tags above t keeps the results of what stays live. |
| `ProgramPath.RunsTheProgram` | coreblocks/func_blocks/fu/jumpbranch.py:166-223 | From reset, for every semantics of operations and successors and every interleaving before a trap's restart: the in-order machine started where the frontend was runs through exactly the committed operations, each the true successor of the one before, and ends with the core's architectural registers. |
| `ProgramPath.ResumesTheProgram` | coreblocks/backend/retirement.py:372-412 | The same from the restart after any trap of any run, on the registers the run before it left. |
| `ProgramPath.CommitsThePath` | coreblocks/core_structs/crat.py:340-373 | From any state on track, rollbacks and wrong guesses included, a run commits a path of the program. |
| `ProgramPath.StepOnTrack` | coreblocks/func_blocks/fu/jumpbranch.py:219-223 | Each step keeps every live instruction after a cleanly finished one its true successor, and commits a stretch of the path. |
| `ProgramPath.CommitPath` | coreblocks/backend/retirement.py:313-346 | What a retired group commits continues the path; without a trap, what is known to follow it is where the in-order machine then stands. |
| `ProgramPath.LinksCut` | coreblocks/core_structs/crat.py:345-363 | Deactivating the tags above t keeps the instructions that stay live on the path. |
| `ProgramPath.SuccessorKnown` | coreblocks/func_blocks/fu/jumpbranch.py:80-112 | A live executing instruction's operands give the successor the in-order machine would take. |
| `TrapLaws.CommitsAsAnnounced` | coreblocks/backend/retirement.py:220-337 | In every run: a retiring group with no live instruction announced with an exception commits exactly its live operations and stays in normal operation; otherwise exactly those before the first such instruction commit, with it exactly if it carries an asynchronous interrupt, and the core flushes, or resumes if empty. |
| `TrapLaws.CleanRetires` | coreblocks/backend/retirement.py:313-337 | A group whose live instructions finished without exception leaves the RRAT overlaid with them and commits them all. |
| `TrapLaws.FaultTraps` | coreblocks/backend/retirement.py:252-303 | The first live exception traps: what precedes it commits, a synchronous one does not, the carrier of an asynchronous interrupt does, and nothing behind it. |
| `TrapLaws.FlushDrains` | coreblocks/backend/retirement.py:348-370 | During a flush nothing commits and the RRAT stays; retiring the last instruction of an otherwise empty core ends it. |
| `TrapLaws.OutcomeAnnounced` | coreblocks/core_structs/rob.py:164-169 | In every run each reorder buffer entry holds the exception bit announced for that very instruction, and none otherwise. |
| `GroupLaws.FetchOrder` | coreblocks/scheduler/scheduler.py:415-452 | In every run, what was fetched and has not retired is in flight, in fetch order: nothing is lost, repeated or reordered. |
| `GroupLaws.GroupFate` | coreblocks/core_structs/crat.py:175-329 | A fetched group joins the reorder buffer as it was fetched. While no rollback is pending, or if it names the pending one, it is live, unlocks and renames the table and takes its checkpoint; otherwise it is dead and leaves table and checkpoints alone. |
| `Progress.AlwaysDrains` | coreblocks/core_structs/crat.py:96-498 | From every history, whatever was speculated, rolled back or trapped, clock cycles that neither fetch nor roll back empty the core. |
| `Progress.NeverStuck` | coreblocks/func_blocks/fu/common/rs.py:90-167 | A core with anything in flight can make a step without fetching. |
| `Progress.ForwardWork` | coreblocks/core_structs/crat.py:175-329 | Every such step leaves less to do, so only a bounded number of them follow each other. |
| `Progress.RegistersReady` | coreblocks/core_structs/crat.py:175-329 | With no restore under way the table's registers are ready for every step the core can make. |
| `Progress.RestoreFinishes` | coreblocks/core_structs/crat.py:376-393 | After any history two idle cycles finish any restore. |
| `RenameTheorems.NoLostWakeup` | coreblocks/func_blocks/fu/common/rs.py:90-167 | An operand still naming a register names the destination of an older instruction in flight that is not done. |
| `RenameTheorems.OldestIsReady` | coreblocks/func_blocks/fu/common/rs.py:90-93 | The oldest unfinished instruction, once inserted, can be taken: both operands are captured. |
| `RenameTheorems.OperandValues` | coreblocks/scheduler/scheduler.py:415-452 | A live instruction executes with the current values of its source registers, which are the program-order mappings of its logical sources. |
| `RenameTheorems.RegistersRetire` | coreblocks/backend/retirement.py:199-224 | For any window width, the masks computed from the registers retire an enabled prefix with the core's sequential outcome, and free a tag exactly on an increment. |
| `RenameWitness.RolledBack` | coreblocks/core_structs/crat.py:340-373 | A concrete history of cycles in which a branch is allocated, tagged, renamed with a checkpoint and rolled back to: the hypotheses about histories can be met. |
| `RenameWitness.Restored` | coreblocks/core_structs/crat.py:376-393 | Two idle cycles later the restore has finished and the table holds the branch's own rename. |
| `RenameTheorems.CutOverlay` | coreblocks/core_structs/crat.py:345-355 | Deactivating every tag above t is the same overlay as cutting the instruction sequence after t's last instruction. |
| `RenameProofs.ReachableInv` | coreblocks/core_structs/crat.py:175-427 | The invariant (tag chain, partition, valid bits, speculation, wakeups, operand values) holds in every state reachable by any interleaving of the nine steps. |
| `RenameProofs.StepInv` | coreblocks/scheduler/scheduler.py:56-70 | Each step keeps the whole invariant. |
| `RenameProofs.RenamedOverlay` | coreblocks/core_structs/crat.py:201-236 | Renaming a group in order extends the overlay by the group, and its sources are those of the program-order table. |
| `RenameProofs.InsertFindsProducer` | coreblocks/scheduler/scheduler.py:415-452 | A live instruction inserted with a register not valid has an older unfinished producer of it in flight. |
| `RenameProofs.AnnounceFresh` | coreblocks/core_structs/rf.py:86-93 | The destination of an unfinished instruction is not valid, so an announcement never overwrites a valid register. |
| `RenameProofs.RollbackSpeculation` | coreblocks/core_structs/crat.py:340-393 | A rollback makes the table, all older snapshots and all sources those of the surviving instructions. |
| `RenameProofs.RetireIsOverlay` | coreblocks/backend/retirement.py:313-337 | Sequentially retiring a prefix turns the RRAT into its overlay with the prefix's live instructions when nothing trapped. |
| `RenameProofs.RetirePartition` | coreblocks/backend/retirement.py:129-169 | Retirement, inactive flush and trap flush keep the register partition. |
| `RenameProofs.RetireValid` | coreblocks/core_structs/rf.py:99-104 | Freeing at retirement keeps the valid bits exactly on mapped and finished registers. |
| `RenameProofs.RetireSourceStays` | coreblocks/backend/retirement.py:129-169 | A valid source of an instruction that stays in flight and live is still valid after retirement: it is not freed under its reader. |
| `CoreCycle.TickInv` | coreblocks/core_structs/crat.py:96-498 | One clock cycle with any legal set of simultaneous methods keeps the core invariant and the refinement of the registers to the specification table. |
| `CoreCycle.HistoryInv` | coreblocks/core_structs/crat.py:96-498 | Every history of cycles from reset keeps both. |
| `CycleTotal.TickPossible` | coreblocks/core_structs/crat.py:96-498 | After any history, every cycle the registers and queues are ready for can be performed by the core's steps, with any quiet steps possible after its front part: the histories leave no hardware cycle out. |
| `CycleTotal.FrontPossible` | coreblocks/core_structs/crat.py:175-329 | Readiness of the registers for restart, rename and tag makes the corresponding steps enabled in turn. |
| `CoreCycle.FreeRollbackCommute` | coreblocks/core_structs/crat.py:402-427 | Freeing the oldest tag and rolling back to a younger one in the same cycle give the same state in either order. |
| `CratRefinement.RenameRep` | coreblocks/core_structs/crat.py:175-250 | Renaming on the registers, with its checkpoint allocation, refines the specification step. |
| `CratRefinement.TagRep` | coreblocks/core_structs/crat.py:261-329 | The tag stage on tag numbers refines tagging with unbounded tags, also during a rollback. |
| `CratRefinement.ResumesIsMatches` | coreblocks/core_structs/crat.py:264-311 | The register comparisons let a group resume exactly when it carries the rolled back tag, whatever older tags share its number. |
| `CoreCycle.AwaitedBack` | coreblocks/core_structs/crat.py:264-311 | A group waiting for a tag when a rollback strikes belongs to an older path, so in the cycle after it the comparison with the tag restored last is never decisive. |
| `CratRefinement.Stage2Rep` | coreblocks/core_structs/crat.py:376-387 | The slot response drops the younger part of the ring and the restored checkpoint itself. |
| `CratRefinement.Stage3Rep` | coreblocks/core_structs/crat.py:389-393 | The storage response puts the specification's rolled back table into the FRAT. |
| `CratRefinement.FreeRep` | coreblocks/core_structs/crat.py:402-427 | Freeing a tag on the registers, with its checkpoint if it owns one, refines the specification step. |
| `CratRefinement.RollbackTagsRep` | coreblocks/core_structs/crat.py:345-363 | The cyclic invalidation mask clears exactly the specification's younger tags. |
| `CratRefinement.RollbackRep` | coreblocks/core_structs/crat.py:340-373 | A rollback request on the registers refines the specification's instantaneous rollback. |
| `CratClock.BypassSeesGroup` | coreblocks/core_structs/crat.py:201-207 | The same-cycle bypass chain reads the table as the earlier renames of the group leave it. |
| `CratClock.CycleActive` | coreblocks/core_structs/crat.py:487-489 | The one assignment to the active bits, set mask then both reset masks of the same cycle, equals the sequence of tag, free and rollback steps. |
| `CratClock.CycleOwns` | coreblocks/core_structs/crat.py:412-424 | Ring tail and full flag after the serialized cycle are what the one-cycle assignments compute from the old registers: a tag just rolled back frees no slot twice. |
| `CratClock.AllocateAndFree` | coreblocks/core_structs/crat.py:147-155 | When a slot is allocated and one freed in the same cycle, the moved head never meets the moved tail, so comparing with the next tail rightly leaves the ring not full. |
| `CratClock.InvalidateMoves` | coreblocks/core_structs/crat.py:345-355 | Invalidating from the old tail or from the tail after a free differs only in the freed tag. |
| `CratClock.Crat.Clock` | coreblocks/core_structs/crat.py:96-498 | Register assignments all reading the old values produce exactly the serialized cycle of the refinement. |
| `CratHistory.ReadyIsLegal` | coreblocks/core_structs/crat.py:96-498 | Whatever a cycle of the core asks of the table after any history meets the conditions under which that holds. |
| `CratHistory.Follow` | coreblocks/core_structs/crat.py:96-498 | The clocked class extends any history of the core by one cycle: its registers are the history's. |
| `CratClock.NextTagging` | coreblocks/core_structs/crat.py:261-329 | The tag stage's registers assigned from old values equal the serialized cycle's. |
| `CratClock.NextControl` | coreblocks/core_structs/crat.py:340-393 | The rollback and restore control registers assigned from old values equal the serialized cycle's. |
| `CratClock.NextBits` | coreblocks/core_structs/crat.py:487-492 | The mask assignments to the active and checkpointed bits equal the serialized cycle's, free and rollback in one cycle included. |
| `CratClock.NextRing` | coreblocks/core_structs/crat.py:139-165 | The ring pointers and the full flag equal the serialized cycle's, allocation and free in one cycle included. |
| `CratClock.NextTable` | coreblocks/core_structs/crat.py:238-250 | The FRAT equals the serialized cycle's: renames, flush restore and rollback restore in the order in which they win. |
| `CratClock.NextMemories` | coreblocks/core_structs/crat.py:157-165 | Snapshot storage, tag map and their pending reads equal the serialized cycle's. |
| `CratSpec.FreeInv` | coreblocks/core_structs/crat.py:402-427 | Freeing in order keeps the specification table's invariant. |
| `CratSpec.RollbackInv` | coreblocks/core_structs/crat.py:340-373 | Nested rollbacks keep it. |
| `RatModel.OverlayOrigin` | coreblocks/core_structs/crat.py:248-250 | A mapping of the overlay comes from the base table or from an active instruction's destination. |
| `RatModel.SourcesCut` | coreblocks/core_structs/crat.py:345-355 | Deactivating the tags above t keeps the sources of all instructions that stay active. |
| `Retirement.LongestPrefix` | coreblocks/backend/retirement.py:199-206 | The mask arithmetic picks the longest done prefix with at most one tag increment. |
| `Retirement.FreesOnIncrement` | coreblocks/backend/retirement.py:205-207 | A tag is freed exactly when the retired prefix holds an increment. |
| `Retirement.OwnTagActivity` | coreblocks/backend/retirement.py:209-218 | Each retired entry is judged by the activity of its own tag: last retired tag plus the increments up to it. |
| `Retirement.TrapPoint` | coreblocks/backend/retirement.py:220-224 | Below the trap point nothing live faults; if inside the prefix it is a live faulting entry, and only then an exception is raised. |
| `Retirement.BypassReadsWritten` | coreblocks/core_structs/rat.py:22-31 | The bypass over lower commit ports reads the table as those ports leave it. |
| `Retirement.GroupIsSequential` | coreblocks/backend/retirement.py:313-337 | For any width, group retirement gives the RRAT, the freed registers in order and the trap decision of one-at-a-time retirement (an interrupt's carrier commits, a faulting instruction does not). |
| `Retirement.RetireConserves` | coreblocks/backend/retirement.py:129-169 | As multisets, mapped plus retired destinations equal mapped plus freed afterwards. |
| `RetirementClock.RetirementUnit.Cycle` | coreblocks/backend/retirement.py:199-370 | One cycle of NORMAL or TRAP_FLUSH: the longest prefix leaves with the outcome of sequential retirement (nothing live in a flush), the last retired tag and the trap state follow. |
| `RetirementHistory.Follow` | coreblocks/backend/retirement.py:199-370 | After any history, a cycle of the unit over a window of the reorder buffer performs an enabled retirement of the core, beside a rollback of the same cycle or not: table, freed registers, tag and trap state are the core's. |
| `RetirementHistory.RollbackKeepsRetired` | coreblocks/backend/retirement.py:238-346 | Retiring before and after a rollback of the same cycle has the same outcome: what leaves is older than the instruction that asked for it. |
| `RetirementClock.RetirementUnit.CommitGroup` | coreblocks/backend/retirement.py:311-346 | The loop over the ports commits and frees what the group outcome prescribes. |
| `RenameProofs.RestartInv` | coreblocks/backend/retirement.py:372-412 | Handing the RRAT to the checkpoint table after a trap re-establishes the whole invariant: with nothing in flight it is the speculative table. |
| `RetirementClock.DeadRetires` | coreblocks/backend/retirement.py:354-370 | A flush frees exactly the entries' own destinations and leaves the table. |
| `CoreStructs.RetiredTable.Commit` | coreblocks/core_structs/rat.py:22-31 | Every commit port returns the mapping it would replace had the lower ports already finished; the table ends with all writes, higher ports winning. |
| `CoreStructs.RegisterFile.Read` | coreblocks/core_structs/rf.py:66-84 | A read in the cycle of writes gives validity and value as if they were done already. |
| `CoreStructs.RegisterFile.Clock` | coreblocks/core_structs/rf.py:86-104 | Values and valid bits after a cycle of writes and frees; register 0 stays valid and zero. |
| `CoreStructs.WrittenValue` | coreblocks/core_structs/rf.py:66-84 | With distinct registers, the file holds for each written register its one result, and for the others what it held. |
| `CoreStructs.ReservationStation.Clock` | coreblocks/func_blocks/fu/common/rs.py:108-186 | After a cycle every row has heard all broadcasts, the inserted row is the given one, the taken row is empty. |
| `CoreStructs.Broadcast` | coreblocks/func_blocks/fu/common/rs.py:131-150 | The update ports wake one row as the broadcasts would one after the other. |
| `CoreStructs.WakeAllRegs` | coreblocks/func_blocks/fu/common/rs.py:131-150 | After the broadcasts an operand names a register exactly if none of them was for it. |
| `CoreStructs.AnnounceAllFile` | coreblocks/backend/announcement.py:60-69 | Announcements of one cycle taken one by one leave the register file that the write ports leave at once. |
| `CoreStructs.AnnounceAllRows` | coreblocks/backend/announcement.py:60-69 | They finish exactly the announced instructions and wake every other row with all results. |
| `CoreStructs.AnnounceEnabled` | coreblocks/backend/announcement.py:60-69 | Each of them is an enabled step of the core when its turn comes. |
| `CoreStructs.SameCycleInsert` | coreblocks/scheduler/scheduler.py:415-488 | A row inserted in the cycle of any announcements, built from forwarding reads, is the row inserted after them: no wakeup falls between. |
| `CoreStructs.ReorderBuffer.Put` | coreblocks/core_structs/rob.py:147-160 | New entries are appended unfinished under the identifiers of their slots; purity bits are stored for the first retirement-width entries and stale for the rest. |
| `CoreStructs.PurityLost` | coreblocks/core_structs/rob.py:147-154 | A pure entry beyond the retirement width is stored as impure. |
| `CoreStructs.ReorderBuffer.MarkDone` | coreblocks/core_structs/rob.py:164-175 | Exactly the entry owning the identifier becomes finished. |
| `CoreStructs.ReorderBuffer.Peek` | coreblocks/core_structs/rob.py:118-131 | The front of the queue with each entry's outcome. |
| `CoreStructs.ReorderBuffer.Retire` | coreblocks/core_structs/rob.py:133-145 | The finished front leaves, the others keep their outcome although slots wrap, and reused slots start unfinished. |
| `PageTable.SamePage` | coreblocks/priv/vmem/walker.py:177-228 | Two page numbers agreeing above the level at which the walk stops get the same leaf, size and verdict. |
| `PageTable.StoreVersusLoad` | coreblocks/priv/vmem/walker.py:269-279 | Where a load hits, a store gets the same answer, or a page fault exactly when D is clear. |
| `Walker.Translate` | coreblocks/priv/vmem/walker.py:166-287 | A walk over unchanged memory ends within one bus read per level with the answer of the recursive algorithm under Svade, for any level count and tables. |
| `TranslationLaws.AccessSucceeds` | coreblocks/priv/vmem/translation.py:120-222 | A translated canonical access succeeds exactly when a chain of valid pointer entries leads to a valid, aligned leaf with A set whose bits allow it (X and own privilege for fetches; W and D for stores; R, or X with MXR, for loads; U for users; no U without SUM for supervisor data), and its page is the leaf's frame plus the page number's low levels; an access fault exactly when the chain meets a forbidden or failing read or a frame out of range. |
| `TranslationLaws.TlbAnswersPrescribed` | coreblocks/priv/vmem/translation.py:132-222 | The same, bit for bit, for every TLB answer after any run for a page whose changes are covered by fences. |
| `TranslationLaws.EntryBits` | coreblocks/priv/vmem/walker.py:80-100 | A fetched entry is a leaf, a pointer, out of range or invalid exactly by its V, R, W, X, U, A, D and reserved bits, its frame and the level. |
| `TranslationLaws.WalkIsChain` | coreblocks/priv/vmem/walker.py:177-228 | The walk finds exactly the mapping at the end of the chain of pointer entries, each at its table's address plus the page number's digit, and there is at most one. |
| `TranslationLaws.AboveIsQuotient` | coreblocks/priv/vmem/walker.py:166-176 | A level's index is the page number's digit, a page number above a level its quotient by the level's weight. |
| `TranslationLaws.SpliceIsSum` | coreblocks/priv/vmem/translation.py:159-164 | The page of a superpage hit is the frame's upper part plus the page number's lower part. |
| `TranslationLaws.LowZeroIsMultiple` | coreblocks/priv/vmem/walker.py:262-267 | The misalignment test is divisibility by the superpage's size. |
| `TranslationLaws.Canonical` | coreblocks/priv/vmem/translation.py:114-118 | Exactly the page numbers that are not sign extensions of their translated part are rejected. |
| `Walker.PageTableWalker.Request` | coreblocks/priv/vmem/walker.py:230-256 | The walk starts at the root sampled from satp; bare mode is an immediate page fault. |
| `Walker.PageTableWalker.Change` | coreblocks/priv/vmem/walker.py:166-228 | Memory changing under a walk leaves its progress as it is. |
| `Walker.PageTableWalker.IssueStep` | coreblocks/priv/vmem/walker.py:177-186 | Check and read are one level of the algorithm on what memory holds at that moment. |
| `Walker.PageTableWalker.EvalStep` | coreblocks/priv/vmem/walker.py:187-228 | Judging the fetched entry gives the algorithm's next position, whatever memory holds by then. |
| `Walker.PageTableWalker.Accept` | coreblocks/priv/vmem/walker.py:258-287 | The selected result is the algorithm's judgement of the stop the walk came to, misaligned superpages, A and D included, and a hit carries the leaf found. |
| `Tlb.StepInv` | coreblocks/priv/vmem/tlb.py:278-355 | Every request, walk read, refill, late hit, fence, address space switch and table change, also under a walk, keeps: each valid entry answers as a fresh walk for every page it covers that is not in debt; a walk in flight stays on the path of all pages sharing it or they are in debt; what is stale is owed or named by a waiting fence, and concerns the walk in flight. |
| `Tlb.RunInv` | coreblocks/priv/vmem/tlb.py:278-355 | So does every run. |
| `Tlb.ReadKeeps` | coreblocks/priv/vmem/walker.py:177-228 | One read keeps the walk in flight on the current path of every page that shares it, or stops with the entry that decides about all of them; only a global entry in an abandoned table is recorded against them. |
| `Tlb.ChangeFlight` | coreblocks/priv/vmem/tlb.py:278-304 | A table change under a walk either leaves what the walk has gone through in place or is recorded for every page concerned. |
| `Tlb.RefillOk` | coreblocks/priv/vmem/tlb.py:292-304 | A refill's entry is right for every page of its superpage, in every address space if global, unless changes since its reads put the page in debt. |
| `Tlb.RefillThenHit` | coreblocks/priv/vmem/tlb.py:292-304 | Right after a refill that hit, every page of the superpage hits, in every address space if the entry is global. |
| `TlbRequests.AnswersTheRequest` | coreblocks/priv/vmem/tlb.py:243-304 | In every run each answer is for the page and access asked for last on its port, in the address space switched to last, or for a refill in the one current when it started. |
| `Tlb.FlushKeeps` | coreblocks/priv/vmem/tlb.py:306-317 | An entry surviving a fence is excused by no change the fence settles: one-address fences settle a changed superpage leaf for all its pages. |
| `Tlb.ChangeKeeps` | coreblocks/priv/vmem/tlb.py:107-127 | A table change leaves each entry right for the pages without debt. |
| `Tlb.OutputIsFresh` | coreblocks/priv/vmem/tlb.py:243-304 | An answer for a page all of whose changes are covered by fences issued before the lookup, or before the refill started, is a fresh walk's, up to the dirty bit check left to the translator, whatever fences wait by then. |
| `Tlb.RefillIsFresh` | coreblocks/priv/vmem/tlb.py:278-304 | A refill's answer is a fresh walk's for a page without stale changes, with any fences waiting. |
| `Tlb.StaysClear` | coreblocks/priv/vmem/tlb.py:306-355 | A page with nothing owed stays so, and so does what a refill started meanwhile depends on, along every run that does not change it and whose walks find no global entry for it in an abandoned table that no waiting fence removes. |
| `Tlb.NothingTorn` | coreblocks/priv/vmem/walker.py:177-228 | A walk in an address space with nothing stale on a page finds no abandoned global entry for it. |
| `Tlb.GuardedRun` | coreblocks/priv/vmem/tlb.py:306-317 | While a fence for everything waits, or nothing is stale on a page, nothing but a new change touches the page, whatever walks under way find. |
| `Tlb.PlainRun` | coreblocks/priv/vmem/tlb.py:107-127 | While no readable entry is marked global, nothing global is ever owed. |
| `Translator.TlbIsInvisible` | coreblocks/priv/vmem/translation.py:98-222 | For every run, with tables changing also under walks, and every context, the translator's fault flags and, without a fault, physical page are those of a fresh walk, superpages and stores with D=0 included, for lookups and refills of pages whose changes are covered by fences issued before. |
| `Translator.FencedIsInvisible` | coreblocks/priv/vmem/tlb.py:306-355 | From the step after a fence is issued, for as long as a page it covers is not changed again and no walk finds a global entry for it in an abandoned table that no waiting fence removes, every answer to a lookup of the page and every answer of a refill started since has the outcome of a fresh walk, although the fence and later ones may wait for a refill. |
| `Translator.FullFenceIsInvisible` | coreblocks/priv/vmem/tlb.py:306-355 | After SFENCE.VMA for all address spaces and addresses the same holds for every page, as long as no later change of the tables concerns it; nothing is asked of what the hardware reads. |
| `Translator.OneSpaceIsInvisible` | coreblocks/priv/vmem/tlb.py:306-355 | After SFENCE.VMA for one address space the same holds for the space's pages, as long as no later change concerns them there, provided no readable entry is ever marked global. |
| `TlbWitness.OneSpaceIsNotEnough` | coreblocks/priv/vmem/tlb.py:292-317 | A concrete run in which a table pointer changes under a walk, the address space is fenced, every other page is covered, and the walked page is still answered with the global entry found in the abandoned table, which is all that is still owed. |
| `Translator.OneAddressCoversSuperpage` | coreblocks/priv/vmem/tlb.py:312-317 | A fence for one address covers the changed leaf of its superpage for all pages of it. |
| `Translator.SpliceAbove` | coreblocks/priv/vmem/translation.py:159-164 | Above the superpage's level the translated page is the leaf's frame. |
| `TlbHardware.FullyAssociativeTlb.Match` | coreblocks/priv/vmem/tlb.py:107-147 | The lowest matching way is found. |
| `TlbHardware.FullyAssociativeTlb.Candidate` | coreblocks/priv/vmem/tlb.py:129-139 | The replaced way: a matching one, else an invalid one, else round robin, the highest index among equals. |
| `TlbHardware.FullyAssociativeTlb.Request` | coreblocks/priv/vmem/tlb.py:319-339 | The request method of any port performs the machine's request step and answers as it does. |
| `TlbHardware.FullyAssociativeTlb.Retry` | coreblocks/priv/vmem/tlb.py:341-355 | The slow path performs a late hit or starts a walk, whichever the lookup decides. |
| `TlbHardware.FullyAssociativeTlb.FinishRefill` | coreblocks/priv/vmem/tlb.py:278-304 | The refill transaction performs the machine's refill step for any answer the walker may give. |
| `TlbHardware.FullyAssociativeTlb.DoFlush` | coreblocks/priv/vmem/tlb.py:306-317 | The way-by-way flush performs the machine's fence step. |
| `TlbPath.Path.Retry` | coreblocks/priv/vmem/tlb.py:341-355 | TLB and walker together: a retried miss starts the machine's walk in the walker, at the root of the current address space. |
| `TlbPath.Path.WalkerReads` | coreblocks/priv/vmem/walker.py:177-186 | The walker's check and read are one step of the machine's walk on memory as it is now. |
| `TlbPath.Path.Finish` | coreblocks/priv/vmem/tlb.py:278-304 | The walker's answer is one the machine allows, and finishes its refill. |
| `TlbPath.Path.DoFlush` | coreblocks/priv/vmem/tlb.py:306-317 | A fence is carried out while the walker is idle, as the machine's step. |
| `TlbPath.Path.TablesChange` | coreblocks/priv/vmem/walker.py:166-228 | Tables changing under both keep them in step. |
| `Pmp.NapotExact` | coreblocks/priv/pmp.py:123-139 | Mask comparison of an NA4 or NAPOT entry with a block is interval overlap, and the mask-size test is coverage. |
| `Pmp.TorExact` | coreblocks/priv/pmp.py:118-122 | The grain-shifted comparators of a TOR entry are comparisons of interval bounds. |
| `Pmp.EntryRegion` | coreblocks/priv/pmp.py:105-129 | What an entry covers: for NAPOT the 2^k words sharing the address bits above its lowest zero, as read back with the grain; for NA4 one word, without a grain; for TOR the grains from the previous address up to its own. |
| `Pmp.EntryWords` | coreblocks/priv/pmp.py:112-139 | An entry is reported as touching a block exactly when it contains one of its words or is inverted inside it; a touching one as covering exactly when it contains all. |
| `Pmp.UniformIsUniform` | coreblocks/priv/pmp.py:96-177 | For every table: the block is uniform exactly when one entry (or none) decides about all its words and the first entry touching it is not inverted there; the selected entry is the deciding one. |
| `Pmp.InvertedRejects` | coreblocks/priv/pmp.py:118-122 | An empty TOR entry that decides about no word makes a block non-uniform. |
| `FtqPointers.LtWindow` | coreblocks/interface/views.py:38-41 | `<` on parity pointers is `<` on positions for -N < b-a <= N. |
| `FtqPointers.LeWindow` | coreblocks/interface/views.py:43-46 | `<=` agrees for -N <= b-a < N. |
| `FtqPointers.GeWindow` | coreblocks/interface/views.py:48-51 | `>=` agrees for -N <= a-b < N. |
| `FtqPointers.WindowsAreExact` | coreblocks/interface/views.py:38-51 | Just outside each window the comparison is wrong. |
| `FtqPointers.FillLevel` | coreblocks/interface/views.py:53-66 | Full, empty and size agree with the difference of positions. |
| `FtqPointers.IncIsNext` | coreblocks/interface/views.py:32-36 | Adding one flips parity exactly at the end of a lap. |
| `FetchTargetQueue.GenerationsDontAlias` | coreblocks/frontend/ftq.py:263-267 | With at most four requests in flight, two-bit generations differ exactly when the slot was issued again since. |
| `FetchTargetQueue.StaleIsDead` | coreblocks/frontend/ftq.py:303-311 | Whenever pointers are in step, the comparison of generation and position reports exactly the requests a redirect rewound fetch over. |
| `FetchTargetQueue.StaleDetection` | coreblocks/frontend/ftq.py:303-311 | After every run of allocations, sends, exits, commits, training, redirects and exception stalls, a request is reported stale exactly when it was rewound over or the queue is stalled, and generations differ exactly on re-issue. |
| `FetchTargetQueue.PredictionsInOrder` | coreblocks/frontend/ftq.py:294-301 | A request leaving unstale is the one whose prediction is next, also after stalls that dropped requests with their predictions unread. |
| `FetchTargetQueue.ComparisonsInWindow` | coreblocks/frontend/ftq.py:340-410 | Every run keeps train <= commit <= fetch <= alloc <= train+N, and each parity comparison of the queue is a comparison of positions. |
| `FtqLaws.TrainedBeforeReuse` | coreblocks/frontend/ftq.py:349-391 | In every run: training runs exactly while entries before the last committed one are untrained, allocation stops exactly at stalls and N entries past the trained ones, and trained <= committed <= allocated <= trained + N, so every committed entry below the last is trained once before its slot is reused. |
| `FtqLaws.EventsDecide` | coreblocks/frontend/ftq.py:378-391 | Commit is the entry named last, training the number of trained entries, a stall lasts until it is ended, whatever else happens. |
| `FtqLaws.RedirectStartsOver` | coreblocks/frontend/ftq.py:393-410 | After a backend redirect the next entry allocated and the next request sent are the one after the named entry, in order, and only newly allocated entries are sent. |
| `FtqLaws.ExitStartsOver` | coreblocks/frontend/ftq.py:339-347 | So after a block that leaves unstale and redirects. |
| `FtqLaws.SentIsNext` | coreblocks/frontend/ftq.py:258-269 | A request sent is for the next position, is not stale, and joins those in flight. |
| `FtqHardware.Queue.AllocEntry` | coreblocks/frontend/ftq.py:235-252 | Allocation happens exactly while not stalled and a slot is free of training, as one step. |
| `FtqHardware.Queue.SendRequest` | coreblocks/frontend/ftq.py:258-269 | A request is sent with the slot's next two-bit generation. |
| `FtqHardware.Queue.CheckStale` | coreblocks/frontend/ftq.py:308-311 | The register comparison answers stale exactly for invalidated requests or during a stall. |
| `FtqHardware.Queue.BeginStall` | coreblocks/frontend/stall_controller.py:49-60 | An exception stalls the queue as one step. |
| `FtqHardware.Queue.EndStall` | coreblocks/frontend/stall_controller.py:62-67 | The stall ends once the backend has redirected, with pointers in step again. |
| `FtqHardware.Queue.Leave` | coreblocks/frontend/ftq.py:313-347 | A live request reads its own prediction and may rewind allocation and fetch to its successor; one reported stale, also by a stall, is dropped. |
| `FtqHardware.Queue.CommitEntry` | coreblocks/frontend/ftq.py:378-391 | Commit moves to the named entry. |
| `FtqHardware.Queue.TrainEntry` | coreblocks/frontend/ftq.py:349-356 | Training walks exactly while behind commit. |
| `FtqHardware.Queue.BackendRedirect` | coreblocks/frontend/ftq.py:393-410 | Allocation, fetch and predictions rewind past the named entry. |
| `FtqHardware.ResolutionIsOrderFree` | coreblocks/frontend/ftq.py:424-446 | In whatever order a block's branches resolve, the record keeps the oldest mispredicting one, else the furthest, and the set of resolved branches. |
| `FetchParse.ParallelIsSequential` | coreblocks/frontend/fetch/fetch.py:282-340 | For any halfword stream in consecutive fault-free blocks from any offset, with stale blocks in between, the emitted instructions are exactly the sequential parse, in order and with their addresses; the carry is set exactly when the parse stops inside an instruction. |
| `FetchParse.ParseIsTheStream` | coreblocks/frontend/fetch/fetch.py:296-303 | The sequential parse is the stream itself, cut at consecutive addresses into two halfwords exactly where the lowest two bits are set, up to the end or an instruction reaching past it. |
| `FetchParse.BlockParse` | coreblocks/frontend/fetch/fetch.py:309-340 | A block entered at an instruction boundary emits its own sequential parse. |
| `FetchParse.StraddleParse` | coreblocks/frontend/fetch/fetch.py:534-547 | A block entered inside the carried instruction emits it first, at the address reduced by one halfword, then the parse from its second halfword. |
| `FetchParse.BlockExtends` | coreblocks/frontend/fetch/fetch.py:325-340 | One live block extends the parse of everything before it. |
| `FetchParse.Stage1.Fetch` | coreblocks/frontend/fetch/fetch.py:282-340 | The slot-by-slot masks produce that emission and carry; a stale block leaves the carry. |
| `FetchParse.ResteeredIsSequential` | coreblocks/frontend/fetch/fetch.py:565-578 | With blocks fetched beyond wrong predictions and fall-through resteers anywhere in between, the blocks on the path still emit exactly their sequential parse, an instruction straddling the resteer included. |
| `FetchParse.WanderingLeavesNoTrace` | coreblocks/frontend/fetch/fetch.py:565-578 | What the path's blocks emit does not depend on what was fetched astray, from any carry. |
| `FetchParse.Stage1.Redirect` | coreblocks/frontend/fetch/fetch.py:570-578 | A fall-through resteer re-establishes the carry that travelled with its block; any other redirect, fault or stall drops it. |
| `ICache.Cache.Clock` | coreblocks/cache/icache.py:156-287 | For every legal mix of lookup, request, flush, refill arrival and reply: a non-error answer is memory's block unless its line was stored to since the last flush; misses start one refill; replies come in request order; a flush takes effect before any later answer. |
| `ICache.Cache.Look` | coreblocks/cache/icache.py:188-213 | A lookup answers exactly when the line is present or its refill failed, with memory's block. |
| `ICache.Cache.Compare` | coreblocks/cache/icache.py:193-200 | The tag comparison finds the line exactly if present, and the hit is one-hot. |
| `ICache.Cache.Exchange` | coreblocks/cache/icache.py:202-233 | Replies meet their requests although a new request may enter in the same cycle. |
| `ICache.Cache.Arrive` | coreblocks/cache/icache.py:254-287 | A refill fills one way in order; its end publishes the line, or nothing on an error, and turns the way. |
| `ICache.Cache.Sweep` | coreblocks/cache/icache.py:241-279 | The flush invalidates set by set, restarts when asked again, and ends with nothing stale. |
| `ICache.Cache.Store` | coreblocks/cache/icache.py:156-287 | A store to memory can make only its own line stale. |
| `ICache.FillKeeps` | coreblocks/cache/icache.py:254-270 | Writing a block into the way being refilled disturbs no other line and keeps the refilled prefix equal to memory. |
| `ICache.FinishKeeps` | coreblocks/cache/icache.py:280-287 | Writing the tag keeps tags unique per set and every valid line equal to memory. |
| `ICache.InvalidateKeeps` | coreblocks/cache/icache.py:272-279 | Invalidating a set in all ways extends the emptied part and disturbs nothing. |
| `Refiller.CacheRefiller.Clock` | coreblocks/cache/refiller.py:29-101 | Every interleaving of requests, responses, errors and starts: words are asked for in order, blocks emitted as specified, and a refill starts only with no response outstanding although the counters wrap. |
| `Refiller.CacheRefiller.Receive` | coreblocks/cache/refiller.py:53-87 | A response completes, fails or extends the current block, and after an error only drains. |
| `Refiller.CacheRefiller.CountersFit` | coreblocks/cache/refiller.py:89-91 | While draining, equal wrapped counters mean exactly that nothing is outstanding. |
| `Refiller.LastExactlyOnce` | coreblocks/cache/refiller.py:64-79 | `last` is set on the final block of a complete refill and on no other. |
| `Refiller.ArrivalsInOrder` | coreblocks/cache/refiller.py:60-79 | The j-th block emitted is the line's j-th, `last` means error or end of line, and nothing follows an error. |
| `Refiller.BlocksAreMemory` | coreblocks/cache/refiller.py:49-58 | With a bus answering from memory every block without error is memory's. |
| `Refiller.ResponseEmits` | coreblocks/cache/refiller.py:53-87 | One response extends a correct emission to a correct emission. |
| `CachePath.Path.Serving` | coreblocks/cache/icache.py:122-251 | Cache and refiller over a flat memory: a non-error answer is the aligned block of the requested word, as the bus reads it, unless a word of its line was stored to since the last flush; replies are taken in the order of requests; a flush takes effect before any later answer, and no refill starts while an old response is outstanding. |
| `CachePath.Path.Refilling` | coreblocks/cache/icache.py:254-287 | The refiller asks the bus for the words of the missing line, in order, and each block it hands on is the one the cache expects next, through errors and draining; a reply taken meanwhile is still its request's block. |
| `CachePath.Path.Turn` | coreblocks/cache/refiller.py:36-87 | One cycle of refiller and bus: each response answers the oldest outstanding address, and words received during a refill are those of the missing line. |
| `CachePath.Path.Store` | coreblocks/cache/refiller.py:53-58 | A store to one word, also during a refill, touches its own line only. |
| `CachePath.EncodeDecode` | coreblocks/cache/icache.py:122-130 | Tag, index, block and word of an address give it back, in the order of the bus. |
| `CachePath.DecodeEncode` | coreblocks/cache/icache.py:122-130 | The words of a block decode to it. |
| `CachePath.StoreMirrors` | coreblocks/cache/refiller.py:53-58 | Storing a word of flat memory is storing the block it decodes to. |
| `CachePath.EmissionFits` | coreblocks/cache/refiller.py:53-87 | The refiller's latest emission is the line's next block, `last` exactly on an error or the final block, with memory's words unless in error or stored to. |
| `Plru.FullCycle` | coreblocks/cache/plru.py:46-81 | From any tree over 2^k ways, 2^k rounds of taking and touching the victim evict every way once and restore the tree. |
| `Plru.TouchedIsSafe` | coreblocks/cache/plru.py:62-76 | A touched way is not the next victim. |
| `Plru.TouchedIsLast` | coreblocks/cache/plru.py:62-76 | A touched way is the last of all 2^k ways to be evicted. |
| `Plru.LastTouchIsSafe` | coreblocks/cache/plru.py:77-81 | After touches on several ports the way of the last calling port is not the victim. |
| `Plru.VictimOfIsVictim` | coreblocks/cache/plru.py:46-57 | The recursion over the heap-ordered register finds the tree's victim. |
| `Plru.WalkIsTouch` | coreblocks/cache/plru.py:62-76 | The walk over the register is the touch of the tree it encodes. |
| `Plru.TreePlru.GetVictim` | coreblocks/cache/plru.py:54-57 | The method returns the tree's victim. |
| `Plru.TreePlru.Clock` | coreblocks/cache/plru.py:77-81 | The register after a cycle encodes the tree after all ports' touches in order. |
| `LongDivision.ArrayExact` | coreblocks/func_blocks/fu/division/long_division.py:74-107 | While remainder and consumed bits fit the word, the cells split remainder and bits by the divisor; zero divisors give all ones. |
| `LongDivision.PartialIsShorter` | coreblocks/func_blocks/fu/division/long_division.py:101-105 | Partial remainder and leading quotient bits are those of the shorter array over the leading bits. |
| `LongDivision.NoOverflow` | coreblocks/func_blocks/fu/division/long_division.py:78-79 | The running remainder extended by the next bits never exceeds the dividend prefix consumed, so the truncation drops nothing. |
| `LongDivision.FullStage` | coreblocks/func_blocks/fu/division/long_division.py:182-204 | A full stage advances the division of the prefix by its number of bits. |
| `LongDivision.ShortStage` | coreblocks/func_blocks/fu/division/long_division.py:193-199 | The short last stage finishes it with the same array. |
| `DivUnit.LongDivider.Clock` | coreblocks/func_blocks/fu/division/long_division.py:156-204 | For any width and steps per cycle, the accepted result is the true quotient and remainder of the issued operands, after one cycle per stage; clear and issue override as in the source. |
| `DivUnit.LongDivider.Calculate` | coreblocks/func_blocks/fu/division/long_division.py:182-204 | One stage keeps the division of the consumed prefix exact. |
| `DivUnit.AnswerIsExpected` | coreblocks/func_blocks/fu/div_unit.py:71-119 | DIV, DIVU, REM and REMU give the values of section 7.2, division by zero and signed overflow included, for all words. |
| `DivUnit.SignedDivision` | coreblocks/func_blocks/fu/div_unit.py:89-94 | DIV on magnitudes with conditional negation is division rounding to zero. |
| `DivUnit.SignedRemainder` | coreblocks/func_blocks/fu/div_unit.py:100-105 | REM on magnitudes has the dividend's sign. |
| `DivUnit.FlipExact` | coreblocks/func_blocks/fu/div_unit.py:111-119 | Negating unless the sign bit is set encodes the signed result for every magnitude that occurs. |
| `DivUnit.TruncatedLaw` | coreblocks/func_blocks/fu/div_unit.py:89-105 | The reference quotient and remainder satisfy the division identity with a remainder smaller than the divisor and of the dividend's sign. |
| `DivUnit.Unit.Clock` | coreblocks/func_blocks/fu/div_unit.py:66-121 | A delivered result is the divider's, finished under the oldest queued parameters; paired, it is the prescribed one for its instruction; pairing survives exactly unless a clear drops a computation. |
| `DivUnit.ClearMispairs` | coreblocks/func_blocks/fu/div_unit.py:66-119 | After issue, clear and a second issue, the second instruction's result comes out under the first one's identifiers, sign and selection. |
| `DivUnit.MispairedExample` | coreblocks/func_blocks/fu/div_unit.py:66-119 | A remainder answered with a quotient. |
| `CarrylessProduct.Quarters` | coreblocks/func_blocks/fu/zbc.py:140-145 | A product coefficient is the sum of the shifted coefficients of the four half products. |
| `CarrylessProduct.ShiftStep` | coreblocks/func_blocks/fu/zbc.py:93-100 | One shift-and-add step moves the lowest bit out of the product still to be added. |
| `CarrylessProduct.ReversedCoef` | coreblocks/func_blocks/fu/zbc.py:208-215 | The product of reversed factors is the reversed product. |
| `CarrylessProduct.CoefIsParity` | coreblocks/func_blocks/fu/zbc.py:78-101 | A product bit is set exactly when an odd number of bit pairs meet in it. |
| `Zbc.ResetComputes` | coreblocks/func_blocks/fu/zbc.py:85-91 | At every recursion depth and from any state a reset starts the product of the inputs. |
| `Zbc.StepComputes` | coreblocks/func_blocks/fu/zbc.py:93-99 | Every later cycle keeps working on that product, whatever the inputs do. |
| `Zbc.CombinedIsProduct` | coreblocks/func_blocks/fu/zbc.py:103-147 | The shifted sum of the four sub-multipliers' products is the product. |
| `Zbc.IdleIsProduct` | coreblocks/func_blocks/fu/zbc.py:78-147 | Whenever busy is low the result is the whole product, iterative or recursive. |
| `Zbc.ResetThenRun` | coreblocks/func_blocks/fu/zbc.py:78-147 | n+1 cycles after a reset busy is low and the result is the product. |
| `Zbc.ReplyIsExpected` | coreblocks/func_blocks/fu/zbc.py:176-215 | clmul, clmulh and clmulr return the product bits from 0, n and n-1 up. |
| `Zbc.Iterative.Tick` | coreblocks/func_blocks/fu/zbc.py:78-101 | The registers of the iterative multiplier perform one step of the model. |
| `Zbc.ZbcUnit.Tick` | coreblocks/func_blocks/fu/zbc.py:170-221 | The reply delivered while busy is low carries the specified bits for the instruction that was issued. |

## Left out

- Transactron's scheduling of transactions, metrics, logging, event log, RVVI output: not modelled.
- Reservation station slots, order and op-type lists: rows are taken by slot; the allocator that orders them and the lists per operation type are not part of the model, so `RenameCore` keeps the rows as phases of the reorder buffer entries.
- Scheduler buffers between stages hold at most one group each in `RenameCore`; the reservation station selection stage is not modelled.
- `Exit` steps of the fetch target queue merge a block's own stall (fault or unsafe instruction) and redirect: both rewind to the successor; the program counters, the return address stack and the prediction memories' contents are not modelled.
- Fetch faults and the target side of taken redirects: the carry they drop is modelled (`FetchParse.Stage1.Redirect`), the fault flags and the choice of the target are not; each target starts a new stream.
- Instruction expansion, predecoding and prediction checking: not modelled.
- `SetAssociativeTLB` as a second level: not modelled; the walker backs the first-level TLB.
- Automatic A/D update in the TLB and walker: not modelled, the Svade behaviour is.
- PMP permission and privilege selection after the match (coreblocks/priv/pmp.py:179-206): not modelled.
- Zbc.ZbcUnit.Tick: issues while the queue is empty only, as its depth of one forces; the sub-multipliers of a recursive multiplier are a value, not objects.
- DivUnit.LongDivider.Clock: steps per cycle above the word width are not modelled; the constructor asks for at most the width.
- CachePath.Path.Refilling: the forwarder between refiller and cache is taken as an immediate hand-over, which the cache's always ready transaction makes it.
- ICache.Cache.Clock: the byte offset within a fetch block and the bypass cache are not modelled.
- ProgramPath.RunsTheProgram: covers a run up to the first restart after a trap; ProgramPath.ResumesTheProgram covers each stretch after one, from whatever address the trap logic picks.
- InOrder.InOrderEquivalence: results are functions of the operation and two register operands; loads and other results that depend on more are not modelled.
- CSRs, trap vector computation, interrupts, instruction counters and side-effect gating in retirement: not modelled.
- Branch predictors, LSU, FPU, multiplier, bus adapters, peripherals: not modelled.
