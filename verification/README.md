# An RV64IM core, block by block

This project models the hard blocks of a small RV64IM processor and proves what
each is for. Each clocked block is a class whose fields are its registers and
whose `Clock`, `Step` or `Cycle` method is one clock edge; the method is proved
equal to a next-state function on values, and the theorems are about all runs
of that function. Depths stay symbolic where the source has parameters.

- **L1 data cache** (`Mshr`, `L1d`, `L1dInv`, `L1dSteps`, `MemPort`, `L1dProof`,
  `L1dResults`, `L1dDrain`, `L1dAccept`, over `ByteMem`, `Bytes`, `Ring`): the
  non-blocking write-back cache with its miss entries against a flat byte memory
  that every accepted store updates at once; when a request must be accepted, and
  which line a miss gives up.
- **Load/store queue** (`Lsq`, `LsqAbs`, `LsqSearch`, `LsqProof`, `LsqLive`,
  `LsqGolden`, `LsqModel`, `LsqValues`, `LsqDispatch`): forwarding,
  stalls, squash and commit bypass against sequential execution in program order,
  and cycle by cycle against the golden model.
- **Register rename** (`Rename`, `RenameProof`, `RenameRuns`, `RenameReady`): the
  map, the circular free list and the checkpoints, beside a list of the
  instructions in flight.
- **Multiplier and divider** (`RiscvM`, `MulDiv`, `MulDivProof`): against
  sections 7.1 and 7.2 of the RISC-V Instruction Set Manual, Volume I
  (20191213).
- **Reorder buffer** (`Rob`, `RobRuns`, `RobData`): the circular buffer against a
  plain queue, and whole runs with numbered entries and the requests they stand
  for.
- **Core, simulator and assembler** (`Words`, `Iss`, `IssHalts`, `Core`,
  `CoreArith`, `CoreMulDiv`, `CoreMem`, `CoreProof`, `CoreRuns`, `CoreReserved`,
  `WordBits`, `WordValues`, `Asm`, `AsmProof`, `AsmLayout`, `AsmImage`): the
  multi-cycle core as a stuttering refinement of the instruction-set simulator,
  what both compute as arithmetic and bit by bit, and the assembler's output read
  back.

## What the surroundings must do

The theorems about runs hold for every environment that keeps these rules; each
is a predicate of its own.

- Cache (`L1dProof.EnvOk`): an access stays inside one line, nothing is
  requested while a flush is walking, memory answers a read with what it held
  when it took the request, after any number of cycles
  (rtl/cache/l1d.sv:11-21, 50-51).
- Load/store queue (`LsqProof.EnvOk`): live positions lie in one window of
  2^ROB_IDX_W from the reorder-buffer head and grow along the dispatch order,
  each address arrives once and for a live entry, commits are in program order,
  a load once answered and a store once addressed (in the same cycle at the
  latest), and the memory read port shows the bytes memory holds
  (sim/lsq/tb_lsq.cpp:539-544).
- Rename (`RenameRuns.Legal`): instructions retire oldest first with the fields
  they were given and never in the cycle they are renamed, a restore names a
  live checkpoint; a bundle presented in a restore cycle counts as not renamed. The
  two range conditions on restores are not assumed: `RenameProof.RestoreExact`
  and `RenameRuns.StepKeeps` show they are exactly what is needed.
- Reorder buffer (`RobRuns.Legal`): at most WIDTH requests, and a writeback
  names the slot of the entry it is meant for, or a free slot if that entry is
  gone.
- Core (`CoreRuns.AllGood`): every instruction that starts is an encoding RV64IM
  defines other than SYSTEM, and its fetch and access stay inside the 64 KiB
  image.
- Assembler (`AsmLayout.Forward`): `.org` never goes back and alignments are
  positive. Which programs are accepted, and where things go in the first pass,
  is said of all of them.

## Where code and comments differ

The model follows the code. The divider always runs 64 steps, also for W forms
(rtl/muldiv.sv:2 says 64 or 32). `opcode` and the two `funct7` bits in
rtl/decode.sv:15-17 carry initial values; they are read as the wires they are
meant to be. The memory responder ignores a request while a read is pending
although its ready is tied high (sim/cache/l1d/cache_model.h:101-122); the cache
never makes one, which is `L1dResults.OneOutstanding`. When a store or load
commits in the cycle its own squash arrives, hardware and golden model of the
load/store queue part ways (`LsqGolden.SquashedCommitDiffers`,
`LsqGolden.LoadPointersAgree`); the core never does that. The golden model's
account of a retiring store does not know the bypass the hardware has
(rtl/lsq/lsq.sv:235-247); `LsqGolden.WritePortAgrees` says when the two differ.

## Model

| member | source | states |
|---|---|---|
| `L1dResults.ReadSeesFlatMemory` | rtl/cache/l1d.sv:171-306 | a request accepted under an unused tag is answered, if at all, exactly once, and a read with what a flat byte memory updated by every accepted store held at its acceptance, in every later legal run without reuse of the tag |
| `L1dResults.AnswersAreFlat` | rtl/cache/l1d.sv:163-220 | in every run from reset, the answers given and the answers still owed are together, as a multiset, exactly what flat memory says the accepted requests must be answered with |
| `L1dResults.AnsweredAtMostOnce` | rtl/cache/l1d.sv:190-220 | until its tag is reused a waiting request is answered at most once, and with the promised value |
| `L1dResults.AllAnswered` | rtl/cache/l1d.sv:163-220 | once nothing is in flight or queued, every accepted request has been answered exactly once |
| `L1dDrain.EverythingIsAnswered` | rtl/cache/l1d.sv:163-220 | from every reachable state, once requests stop, memory takes whatever it is asked and answers each read within a fixed number of cycles, nothing is in flight after a stated number of cycles and every accepted request has had its one answer |
| `L1dDrain.RunDrains` | rtl/cache/mshr.sv:141-177 | the same for a read already under way: the bound is what entries, port and queue still cost |
| `L1dDrain.RemainingFalls` | rtl/cache/mshr.sv:141-177 | each cycle without a request lowers that cost, flushing or not, until it is zero, and takes no request |
| `L1dResults.NothingLost` | rtl/cache/l1d.sv:163-220 | accepted minus answered equals busy entries plus queued responses plus the response register, and the queue never overflows even when a hit and a fill are pushed together |
| `L1dResults.OneOutstanding` | rtl/cache/mshr.sv:123-130 | the memory port requests nothing while a read is outstanding |
| `L1dResults.NoOvertaking` | rtl/cache/mshr.sv:97-130 | no entry fetches a line that another entry still has to write back |
| `L1dResults.OneHome` | rtl/cache/l1d.sv:87-107 | the way an entry reserves is invalid, and neither the line it fetches nor its dirty victim is in a way of the set, or the other one |
| `L1dResults.EntriesApart` | rtl/cache/mshr.sv:97-116 | two entries in flight reserve different ways of a set, and no line is fetched or evicted by both, or fetched by one and evicted by the other |
| `L1dResults.WaysApart` | rtl/cache/l1d.sv:75-78 | no line is in both ways of its set |
| `L1dResults.FlatIsAbstract` | sim/cache/l1d/cache_model.h:10-14 | the flat memory is a function of the hardware state: dirty way, fill with its waiting store, dirty victim not yet written, or backing memory, line by line |
| `L1dResults.FlushedMemory` | rtl/cache/l1d.sv:222-260 | when the walk reports done, backing memory equals the flat memory on every byte and no valid line is dirty |
| `L1dResults.FlushFinishes` | rtl/cache/l1d.sv:230-254 | a walk under way reports done after exactly as many cycles as slots are left, when memory keeps accepting, and memory is then flat |
| `L1dProof.StepKeeps` | rtl/cache/l1d.sv:195-306 | every legal cycle, flushing or not, keeps the structure, data, ledger, port and flush invariants of cache, memory and flat memory |
| `L1dProof.CycleKeeps` | rtl/cache/mshr.sv:141-177 | a cycle with a hit or a miss, a send, a memory answer and a commit all at once keeps the invariant |
| `L1dProof.FlushCycle` | rtl/cache/l1d.sv:230-260 | a cycle of the flush walk keeps the invariant and cleans exactly the slot it leaves |
| `L1dProof.RunKeeps` | rtl/cache/l1d.sv:195-306 | the invariant holds after every legal run |
| `L1dProof.FreshOk` | rtl/cache/l1d.sv:263-273 | a reset cache over any memory satisfies the invariant with that memory as the flat one |
| `L1dProof.AllocWayIsFree` | rtl/cache/l1d.sv:92-102 | the way chosen for a miss is reserved by no entry in flight |
| `L1dAccept.HitTakenIff` | rtl/cache/l1d.sv:171-176 | a request to a line that is in a way is taken exactly when at most 30 responses are queued, whatever is in flight |
| `L1dAccept.MissTakenIff` | rtl/cache/l1d.sv:171-176 | a request to an absent line is taken exactly when there is the same room, some entry is idle, no busy entry fetches the line or evicts it dirty, and a way of the set is unreserved |
| `L1dAccept.QuietIsReady` | rtl/cache/l1d.sv:174-176 | the port is ready when nothing is asked |
| `L1dAccept.VictimNotLastUsed` | rtl/cache/l1d.sv:93-102 | in every run from reset, a miss that finds both ways full and unreserved gives up the way not last used by an accepted hit or an installed fill of that set, and the way last used keeps its line |
| `L1dAccept.VictimIsSpare` | rtl/cache/l1d.sv:93-102 | the chosen way is unreserved, and empty if an unreserved way is; way 0 if it is both |
| `L1dAccept.QueueNext` | rtl/cache/l1d.sv:195-220 | the queued responses leave in order through the response register; a hit and then a fill join behind |
| `L1dAccept.InstalledIff` | rtl/cache/l1d.sv:178-180 | a line that has come is installed exactly when at most 30 responses are queued and no walk is under way, lowest entry first |
| `L1dAccept.AskedIff` | rtl/cache/mshr.sv:123-130 | outside a walk memory is asked exactly when no read is outstanding and an entry still has to write back or fetch: the lowest, for its line |
| `L1dAccept.WalkStartsIff` | rtl/cache/l1d.sv:230-237 | a walk starts exactly when asked for with every entry idle, at the first slot |
| `L1dAccept.WalkMoves` | rtl/cache/l1d.sv:230-254 | a walk goes on to the next slot every cycle, except that it stays at a dirty line until memory takes it, and reports once behind the last slot |
| `L1dSteps.HitKeeps` | rtl/cache/l1d.sv:275-283 | a hit, read or write, keeps structure, data and ledger |
| `L1dSteps.MissKeeps` | rtl/cache/l1d.sv:285-289 | accepting a miss keeps them: the new entry holds the only newest copy of its line and of its dirty victim |
| `L1dSteps.SendKeeps` | rtl/cache/mshr.sv:159-167 | sending a writeback moves the newest copy of the victim to memory; sending a fill changes no content |
| `L1dSteps.AnswerKeeps` | rtl/cache/mshr.sv:169-173 | the line that comes back is the one memory held when it was asked for |
| `L1dSteps.CommitKeeps` | rtl/cache/l1d.sv:293-304 | installing a fill with the store that missed makes the way hold the flat content |
| `L1dSteps.FlushKeeps` | rtl/cache/l1d.sv:241-247 | writing one dirty line back and marking it clean keeps every invariant |
| `L1dInv.StoreInLine` | rtl/cache/l1d.sv:119-127 | a byte-memory store inside one line is the merge of that line and leaves every other line alone |
| `L1dInv.ReadInLine` | rtl/cache/l1d.sv:110-117 | a byte-memory read inside one line is the extract of that line |
| `L1d.L1dUnit.Clock` | rtl/cache/l1d.sv:171-306 | one edge of the unit, arrays, queue, flush registers and entries together, is the next-state function; the request port is ready when nothing is asked or the request is taken, and the memory request is as the wires say |
| `L1d.L1dUnit.Lookup` | rtl/cache/l1d.sv:75-107 | the decision wires: hit, hit way, no way, chosen way |
| `L1d.L1dUnit.UpdateFifo` | rtl/cache/l1d.sv:195-220 | the response queue after a hit push, a fill push and a pop in one cycle |
| `L1d.L1dUnit.UpdateFlush` | rtl/cache/l1d.sv:230-254 | the flush registers after the edge |
| `L1d.L1dUnit.UpdateArrays` | rtl/cache/l1d.sv:263-306 | tags, valid and dirty bits, data and recency bits after hit, miss, fill and walk of one cycle |
| `Mshrs.MshrUnit.Encode` | rtl/cache/mshr.sv:80-93 | each encoder yields the lowest entry of its kind, or none |
| `Mshrs.MshrUnit.CheckPending` | rtl/cache/mshr.sv:97-105 | pending exactly when some busy entry fetches the line or evicts it dirty |
| `Mshrs.MshrUnit.BusyWays` | rtl/cache/mshr.sv:107-116 | a way is busy exactly when a busy entry of the set reserves it |
| `Mshrs.MshrUnit.Clock` | rtl/cache/mshr.sv:141-177 | one edge of the entries: allocation, send, answer and release of the entries chosen before it |
| `MemPort.MemResponder.Step` | sim/cache/l1d/cache_model.h:101-122 | a request is taken exactly when no read was outstanding; writes land at once, a read is answered after its delay with the line held when it was taken |
| `ByteMemory.GetWritten` | sim/cache/l1d/cache_model.h:28-31 | each byte after a write: the written one inside the range, the old one outside |
| `ByteMemory.ReadBack` | sim/cache/l1d/cache_model.h:22-31 | reading back a store of the same access returns its value cut to the size |
| `ByteMemory.WriteThenReadLine` | sim/cache/l1d/cache_model.h:33-40 | a written line reads back and no other line changes |
| `ByteMemory.ByteMem.Read` | sim/cache/l1d/cache_model.h:22-27 | the byte loop returns the little-endian value |
| `ByteMemory.ByteMem.Write` | sim/cache/l1d/cache_model.h:28-31 | the byte loop stores exactly the value bytes |
| `LsqProof.LoadsSeeSequentialMemory` | rtl/lsq/lsq.sv:172-247 | in every run from empty queues the retired operations stand in program order, every retired load has the value of executing them one after the other, and data memory is what that execution leaves |
| `LsqProof.StepKeeps` | rtl/lsq/lsq.sv:250-319 | every legal cycle keeps the queues in step with the operations in flight and every answered load right |
| `LsqProof.AbsStepKeeps` | rtl/lsq/lsq.sv:250-319 | response, arrivals, commits, squash and dispatch of one cycle keep every answered load equal to its sequential value |
| `LsqProof.SquashKeepsPrefix` | rtl/lsq/lsq.sv:150-164 | the survivor counts are exactly the number of entries no younger than the squash point, and those entries are a prefix of each queue |
| `LsqProof.RunKeeps` | rtl/lsq/lsq.sv:250-319 | the invariant holds after every legal run |
| `LsqProof.NextLoads` | rtl/lsq/lsq.sv:272-301 | the load queue after an edge is the survivors without the committed one, marked by response and arrival, then the dispatched ones |
| `LsqProof.NextStores` | rtl/lsq/lsq.sv:273-310 | the same for the store queue |
| `LsqSearch.AnswerIsSequential` | rtl/lsq/lsq.sv:184-233 | a load that can be answered gets the value of memory after all older stores: forwarded from the youngest older overlapping store when it covers the load, memory when none overlaps |
| `LsqSearch.SearchMeans` | rtl/lsq/lsq.sv:187-205 | what the search has seen decides whether an older address is unknown and which bytes sequential execution reads |
| `LsqSearch.AgeIsDistance` | rtl/lsq/lsq.sv:66-69 | inside one window the modular age is the distance in program order, across wrap-around |
| `LsqValues.LoadsReadBytes` | rtl/lsq/lsq.sv:71-78 | in every run each retired load has the bytes memory holds at its address after the retired stores before it: congruent to them modulo their range, below it if unsigned, in its two's-complement range if signed; a doubleword load has all eight |
| `LsqValues.AnswerMeans` | rtl/lsq/lsq.sv:207-233 | the load port of a legal cycle shows, in that sense, the bytes of memory after all older stores |
| `LsqValues.ExtendMeans` | rtl/lsq/lsq.sv:71-78 | what extension computes for every size and sign, on any raw word |
| `LsqValues.MeansOne` | sim/lsq/lsq_model.h:43-50 | no two words have the same such meaning |
| `LsqValues.MemoryAsked` | rtl/lsq/lsq.sv:225-233 | the answered load is named by its index, and data memory is asked for its access exactly when no older store in flight shares a byte with it; with no answer all outputs are zero |
| `LsqValues.OverlapMeans` | rtl/lsq/lsq.sv:196-200 | overlapping is sharing a byte, covering is having every byte of the load |
| `LsqValues.ExpectedMeans` | sim/lsq/lsq_model.h:95-129 | the expected value of the golden model is the bytes of the store it forwards from, or of memory, in that sense |
| `LsqValues.GoldFinds` | sim/lsq/lsq_model.h:95-129 | the search of the golden model finds the youngest older store that overlaps the load, if there is one, and whether it covers it |
| `LsqDispatch.TakenIff` | rtl/lsq/lsq.sv:106-130 | a request is taken exactly when no squash is under way and its queue has a place, less the one a first request of its kind takes |
| `LsqDispatch.LoadsEnter` | rtl/lsq/lsq.sv:132-148 | without a squash the indices of the load queue after a cycle are those of before, less a commit, then those of the loads taken, in order |
| `LsqDispatch.StoresEnter` | rtl/lsq/lsq.sv:132-148 | the same for the store queue |
| `LsqDispatch.EntersWhereTold` | rtl/lsq/lsq.sv:132-135 | a request that is taken sits in the slot announced to it |
| `LsqAbs.RetireStoreKeeps` | rtl/lsq/lsq.sv:243-247 | moving the oldest store to memory leaves the value of every answered load as sequential execution gives it |
| `LsqAbs.ArriveStoreKeeps` | rtl/lsq/lsq.sv:304-310 | an address that arrives late touches no load already answered |
| `LsqAbs.SquashKeeps` | rtl/lsq/lsq.sv:153-164 | a squash leaves the value of every surviving load as it was |
| `LsqLive.CommitWritesStore` | rtl/lsq/lsq.sv:235-247 | what leaves for memory with a commit is the retiring store, even when its address arrives in that very cycle |
| `LsqLive.CanAnswerIff` | rtl/lsq/lsq.sv:186-221 | a load can be answered exactly when every older store has its address and the youngest older overlapping one, if any, covers it |
| `LsqLive.OnceAbleAlwaysAble` | rtl/lsq/lsq.sv:177-221 | an answerable load that is not squashed is answered, or an older one is and it stays answerable, through arrivals, squashes, dispatches and the commit of its forwarding store |
| `LsqLive.AnsweredInTime` | rtl/lsq/lsq.sv:177-221 | in every run such a load at queue position k is answered within k + 1 cycles, and no later than the unanswered loads before it allow |
| `LsqGolden.AnswerIsExpected` | sim/lsq/lsq_model.h:95-129 | whenever the hardware answers, it answers what the golden model expects of the same queues and memory |
| `LsqGolden.LoadPointersAgree` | rtl/lsq/lsq.sv:269-285 | counting survivors before the pop (hardware) or after it (model) gives the same load pointers if and only if what commits is in the queue and survives the squash |
| `LsqGolden.StorePointersAgree` | sim/lsq/lsq_model.h:161-194 | the same for the store pointers |
| `LsqGolden.CycleAgrees` | sim/lsq/lsq_model.h:131-194 | one cycle keeps hardware and model alike if and only if both conditions hold |
| `LsqGolden.CommitsInStep` | sim/lsq/tb_lsq.cpp:539-544 | the commit rule of the core gives those conditions |
| `LsqGolden.AlwaysAgree` | sim/lsq/lsq_model.h:131-194 | in every legal run hardware and model show the same registers in every cycle |
| `LsqGolden.OutputsAlwaysAgree` | sim/lsq/tb_lsq.cpp:127-189 | and the same outputs: the slots offered to dispatch, the value the model expects of the answered load from its own entries, and, bypass apart, the store it expects to leave |
| `LsqGolden.LoadOutAgrees` | sim/lsq/lsq_model.h:95-129 | the answer of a cycle is the expected value of the model registers, not only of the hardware ones |
| `LsqGolden.WritePortAgrees` | sim/lsq/lsq_model.h:79-89 | hardware and model agree on whether a store leaves, and on which if and only if no bypass fires or what it forwards is all zeros |
| `LsqGolden.PointersIff` | sim/lsq/lsq_model.h:161-194 | counting survivors before the pop or after it gives the same pointers of a queue if and only if what commits is in the queue and survives the squash |
| `LsqGolden.SquashedCommitDiffers` | sim/lsq/lsq_model.h:161-194 | registers and wires where it does not: an operation that commits in the cycle that squashes it |
| `LsqModel.Model.ExpectedLoadValue` | sim/lsq/lsq_model.h:95-129 | the loop returns the forwarded value of the youngest covering store or the bytes of memory |
| `LsqModel.Model.PeekDispatch` | sim/lsq/lsq_model.h:62-76 | readiness and slots of both requests |
| `LsqModel.Model.PeekStoreCommit` | sim/lsq/lsq_model.h:79-89 | the head store, or nothing when the queue is empty |
| `LsqModel.Model.Cycle` | sim/lsq/tb_lsq.cpp:191-241 | dispatch, addresses, commit and squash in the order the harness applies them |
| `LsqModel.Model.ApplySquash` | sim/lsq/lsq_model.h:172-194 | queue pointers after a squash |
| `Lsq.LsqUnit.Clock` | rtl/lsq/lsq.sv:102-319 | one edge of the unit is the next-state function, and every output of the cycle is stated: readiness and slots for dispatch, the oldest answerable load with its read of data memory, and the head store with its bypass |
| `Lsq.LsqUnit.FindLoad` | rtl/lsq/lsq.sv:172-223 | the outer loop finds the oldest answerable load and where its value comes from |
| `Lsq.LsqUnit.SearchStores` | rtl/lsq/lsq.sv:187-205 | the inner loop is the search over the live stores in queue order |
| `Lsq.LsqUnit.KeepCounts` | rtl/lsq/lsq.sv:150-164 | the two loops count the survivors |
| `Lsq.LsqUnit.UpdateEntries` | rtl/lsq/lsq.sv:287-318 | both arrays after dispatch, arrival and response |
| `RenameRuns.RestoreUndoes` | sim/rename/rename_model.h:136-168 | restoring a live checkpoint leaves map, free-list sequence and ring exactly as in the twin run that never renamed the younger instructions but retired the same ones, one checkpoint less, for every speculating run in between |
| `RenameProof.RestoreExact` | sim/rename/rename_model.h:141-168 | a restore keeps the whole invariant if and only if fewer than DEPTH registers were handed out behind the checkpoint and it is not the oldest of N_CKPT outstanding ones |
| `RenameRuns.StepKeeps` | sim/rename/rename_model.h:60-171 | a legal cycle keeps the invariant if and only if its restore, if any, is in range |
| `RenameRuns.RunKeeps` | sim/rename/rename_model.h:60-171 | the invariant holds after every legal run |
| `RenameRuns.ReachablePartition` | sim/rename/tb_rename.cpp:82-115 | in every reachable state free, mapped and displaced-but-uncommitted registers are pairwise disjoint, without repetition, and together all registers |
| `RenameProof.Partition` | sim/rename/rename_model.h:84-111 | mapped, free and displaced registers together are all registers, each once |
| `RenameProof.PartitionMeans` | sim/rename/tb_rename.cpp:82-115 | what that balance means element by element, p0 staying with x0 |
| `RenameRuns.SourcesFollowWriters` | sim/rename/rename_model.h:103-134 | each source operand is the register given to the latest surviving older writer, slot 0 of the same bundle included |
| `RenameRuns.OperandsNotFree` | sim/rename/rename_model.h:84-111 | an operand register of an instruction in flight is not on the free list |
| `RenameRuns.GrantIsHeld` | sim/rename/rename_model.h:84-111 | a register granted to a writer is off the free list in every later state of a run until an instruction that displaced it retires or a restore undoes the grant |
| `RenameRuns.StaysOffList` | sim/rename/rename_model.h:84-101 | and so is any register once it is off the list |
| `RenameRuns.FreeListNext` | sim/rename/rename_model.h:84-148 | the free list after a cycle: what a restore reclaims, the old list without what is granted, and what retirement gives back, in this order |
| `RenameRuns.GrantsAreFree` | sim/rename/rename_model.h:84-101 | the registers a bundle is given come off the free list and are two |
| `RenameReady.TakenIff` | sim/rename/rename_model.h:63-72 | a bundle can be taken exactly when two registers are free and the checkpoints held in flight and asked for by its valid branches are at most N_CKPT |
| `RenameReady.TakenHolds` | sim/rename/rename_model.h:63-82 | a bundle that is taken holds one checkpoint more for each such branch, one that is not taken changes nothing |
| `RenameRuns.EntriesAreOutputs` | sim/rename/rename_model.h:125-134 | what enters the in-flight list is what the step reports |
| `RenameRuns.BranchStartsSpeculation` | sim/rename/rename_model.h:149-158 | taking a checkpoint in slot 0 makes slot 1 of the same bundle already younger than it |
| `RenameRuns.BranchInSlot1StartsSpeculation` | sim/rename/rename_model.h:149-158 | and in slot 1, nothing of the bundle is |
| `RenameRuns.RestoreReclaims` | sim/rename/rename_model.h:160-168 | the next id handed out after a restore is the restored one |
| `RenameRuns.FullDrainIsLost` | sim/rename/tb_rename.cpp:395-399 | sixteen two-register bundles behind a checkpoint make its restore free nothing: a legal run where the range condition fails and the invariant is lost |
| `RenameRuns.OldestOfAllIsLost` | sim/rename/rename_model.h:160-168 | eight branches and a restore to the oldest of them give back no checkpoint id: a legal run where the other range condition fails |
| `RenameRuns.SpeculatesIsLegal` | sim/rename/rename_model.h:136-168 | a run that leaves the branch in flight is a legal run |
| `RenameProof.SlotKeeps` | sim/rename/rename_model.h:63-134 | renaming one slot keeps the invariant |
| `RenameProof.RetireKeeps` | sim/rename/rename_model.h:137-139 | retiring the oldest instruction keeps it, the displaced register going back to the tail |
| `RenameProof.RestoreInRangeKeeps` | sim/rename/rename_model.h:141-168 | a restore in range keeps it |
| `RenameProof.RestoreOutOfRange` | sim/rename/rename_model.h:142-144 | a restore out of range never balances the registers again |
| `Rename.EdgeIsNext` | sim/rename/rename_model.h:136-168 | the simultaneous register updates of the code are the one-instruction-at-a-time meaning of the cycle |
| `Rename.RenameModel.Step` | sim/rename/rename_model.h:60-171 | the object after a step is the next-state function; its outputs are stated for every cycle, and are the slot views whenever the bundle is taken |
| `Rename.RenameModel.FreeListContents` | sim/rename/rename_model.h:175-179 | the loop returns the free registers in order |
| `Rename.Residue` | sim/rename/rename_model.h:142-142 | the double remainder is the residue of the difference |
| `Rename.ResiduesAreExact` | sim/rename/rename_model.h:97-100 | the case distinctions that stand for the remainder are the remainder |
| `MulDivProof.DivideAnswers` | rtl/muldiv.sv:83-151 | every DIV, DIVU, REM, REMU and W form started while idle is answered after exactly 2 cycles (zero divisor, overflow) or 66, busy and silent until then whatever the wires say, with the value of section 7.2 of the RISC-V manual |
| `MulDivProof.NoBitLost` | rtl/muldiv.sv:74-81 | after k steps the remainder register is below 2^k, so the shift drops no set bit |
| `MulDivProof.Runs` | rtl/muldiv.sv:129-134 | after k steps the top k bits of the dividend are quotient times divisor plus remainder, remainder below divisor, and the quotient register still holds the other bits |
| `MulDivProof.MultiplyAnswers` | rtl/muldiv.sv:37-52 | every multiply is answered in the next cycle with the low or high half of the exact product of section 7.1 |
| `MulDivProof.HighHalves` | rtl/muldiv.sv:21-32 | the upper halves: signed, mixed and unsigned products are 2^64 times the answer plus the low word |
| `MulDivProof.WordProduct` | rtl/muldiv.sv:38-43 | the W product depends on the low words only |
| `MulDivProof.OrdinaryAnswer` | rtl/muldiv.sv:135-151 | magnitudes divided and signs put back give the rounded-to-zero quotient and the remainder with the sign of the dividend |
| `MulDivProof.SpecialAnswer` | rtl/muldiv.sv:137-143 | the special cases give what the table of section 7.2 says, W forms included |
| `RiscvM.TruncMeans` | rtl/muldiv.sv:143-146 | quotient and remainder are the only pair with dividend = divisor times quotient plus remainder, remainder smaller and signed like the dividend |
| `MulDiv.MulDivUnit.Clock` | rtl/muldiv.sv:83-155 | one edge of the unit is the next-state function |
| `MulDiv.MulDivUnit.LatchDivide` | rtl/muldiv.sv:101-125 | the operand registers and flags after a divide starts |
| `Rob.RobModel.Step` | sim/ooo/rob/rob_model.h:56-173 | one step of the circular buffer is one step of the plain program-order queue, with its commit outputs and flush |
| `Rob.RobModel.Eligible` | sim/ooo/rob/rob_model.h:73-82 | slot i may commit exactly when i is below the number of entries that commit |
| `Rob.RobModel.DetectFlush` | sim/ooo/rob/rob_model.h:93-111 | the flush is that of the last committing entry, exception before mispredict |
| `Rob.RobModel.Retire` | sim/ooo/rob/rob_model.h:125-129 | the committed slots become free and the rest of the queue stays |
| `Rob.RobModel.Squash` | sim/ooo/rob/rob_model.h:131-138 | everything behind the branch goes and the tail follows it |
| `Rob.RobModel.Allocate` | sim/ooo/rob/rob_model.h:139-163 | the valid requests are appended in order |
| `Rob.RobModel.WriteBack` | sim/ooo/rob/rob_model.h:165-172 | results land on the entry that holds their slot, on none if it is free |
| `Rob.CommitsUnique` | sim/ooo/rob/rob_model.h:73-91 | the number that commit is the only one that is a done prefix, stops at the first exception or mispredict, and cannot be longer |
| `Rob.RobModel.IsAllocReady` | sim/ooo/rob/rob_model.h:51-51 | ready when there is room for a full bundle |
| `Ring.WrapIsMod` | sim/ooo/rob/rob_model.h:53-53 | one conditional subtraction is the remainder, for every index the buffer forms |
| `RobRuns.AllocIdxIff` | sim/ooo/rob/rob_model.h:176-176 | an accepted request is in the slot announced to it if and only if every request before it is valid |
| `RobRuns.HoleMovesRequest` | sim/ooo/rob/rob_model.h:139-163 | behind a hole the request is in another slot than announced |
| `RobRuns.CommitsInOrder` | sim/ooo/rob/rob_model.h:56-173 | in every run entries commit at most once, in allocation order, only after a writeback meant for them, and each entry allocated is committed, in flight or squashed, never two of these |
| `RobRuns.FlushedNeverCommits` | sim/ooo/rob/rob_model.h:93-138 | what is in flight behind an excepting or mispredicted entry when it commits never commits later |
| `RobData.RunsReport` | sim/ooo/rob/rob_model.h:83-91 | in every cycle of every run the i-th commit output is valid exactly when more than i numbers join the committed ones, and carries the pc, registers and store flag of the request that got the i-th of these numbers |
| `RobData.CommitsReport` | sim/ooo/rob/rob_model.h:83-91 | the same for one legal cycle; the outputs behind are all zero |
| `RobData.FlushReports` | sim/ooo/rob/rob_model.h:93-111 | the flush is what the last result of the last number to commit asks for: full on an exception, otherwise on a misprediction from the slot it held, with its target; none if nothing commits |
| `RobData.FlushEmpties` | sim/ooo/rob/rob_model.h:119-138 | after a flush nothing is in flight and the next request takes slot 0, or the slot behind the branch |
| `RobData.TakenWhenRoom` | sim/ooo/rob/rob_model.h:139-163 | requests are taken exactly when a full bundle fits and nothing is flushed: the valid ones get the next numbers and stand behind what is left |
| `RobData.BookKeeps` | sim/ooo/rob/rob_model.h:56-173 | the entry of each number in flight carries the fields of its request through every legal cycle |
| `RobRuns.StepKeeps` | sim/ooo/rob/rob_model.h:56-173 | every legal cycle keeps order, partition and the flags of the last writeback |
| `CoreRuns.CoreRefinesIss` | rtl/core.sv:40-111 | after any number of cycles the architectural state of the core is the simulator state after as many steps as instructions have finished, and an instruction takes at most 67 cycles |
| `CoreRuns.Instruction` | rtl/core.sv:100-111 | up to the last cycle of an instruction nothing architectural moves, then it is one simulator step and the unit is ready for the next |
| `CoreRuns.Waits` | rtl/core.sv:40-49 | pc, registers and memory hold while a multiply or divide is under way |
| `CoreRuns.FinishCycle` | rtl/core.sv:85-98 | in the cycle the unit is done, the register written and the next pc are the simulator ones |
| `CoreRuns.UnitAnswers` | rtl/core.sv:42-49 | inside the core the unit is started once, stays silent, and answers right, back-to-back starts included |
| `CoreProof.OneCycleStep` | rtl/core.sv:35-111 | every other defined instruction is one simulator step in one cycle |
| `CoreProof.ValueMatches` | rtl/core.sv:85-90 | the write-back value is the one the simulator computes |
| `CoreArith.ImmediateI` | rtl/decode.sv:26-26 | the wired immediate is the simulator immediate, and its low bits the shift amounts |
| `CoreArith.ImmediateS` | rtl/decode.sv:27-27 | the same for stores |
| `CoreArith.ImmediateB` | rtl/decode.sv:28-28 | the same for branches |
| `CoreArith.ImmediateU` | rtl/decode.sv:29-29 | the same for upper immediates |
| `CoreArith.ImmediateJ` | rtl/decode.sv:30-30 | the same for jumps |
| `CoreArith.OpImmMatches` | rtl/decode.sv:46-59 | decoder and ALU together compute each OP-IMM instruction as the simulator does |
| `CoreArith.OpRegMatches` | rtl/alu.sv:22-34 | and each OP instruction |
| `CoreArith.OpImm32Matches` | rtl/decode.sv:78-86 | and each OP-IMM-32 instruction |
| `CoreArith.OpReg32Matches` | rtl/alu.sv:11-20 | and each OP-32 instruction |
| `CoreArith.BranchMatches` | rtl/core.sv:51-63 | branch conditions agree |
| `CoreMulDiv.MulOpMatches` | model/iss.cpp:139-146 | wrapping and widening host arithmetic gives the products of the unit |
| `CoreMulDiv.DivOpMatches` | model/iss.cpp:147-164 | host division with its special cases is section 7.2 |
| `CoreMulDiv.MulDivOp32Matches` | model/iss.cpp:225-247 | and the W forms |
| `CoreMem.LoadMatches` | model/iss.cpp:18-27 | nested byte loads with sign extension are the one port read, for every load inside the image |
| `CoreMem.StoreMatches` | model/iss.cpp:28-31 | nested byte stores leave the memory the one port write leaves |
| `WordBits.AluBits` | rtl/alu.sv:28-32 | bit by bit: a result bit of AND is set exactly when both operand bits are, of OR when one is, of XOR when exactly one is |
| `WordBits.RegBits` | model/iss.cpp:180-196 | the same for the simulator on registers |
| `WordBits.ImmBits` | model/iss.cpp:123-125 | and on immediates |
| `WordBits.SameBits` | rtl/alu.sv:28-32 | a number is its bits, so nothing else meets that |
| `WordValues.AluValues` | rtl/alu.sv:22-34 | sums, shifts and comparisons of 64 bits as arithmetic modulo 2^64, quotients by powers of two, and orders |
| `WordValues.AluWordValues` | rtl/alu.sv:11-20 | the W forms: the result is the sign extension of its low half, and that is the arithmetic of the low halves modulo 2^32 |
| `WordValues.BranchMeans` | rtl/core.sv:51-63 | the six branch conditions as equality and the two orders |
| `WordValues.LessIsSigned` | rtl/alu.sv:26-26 | the signed order is the unsigned one after moving both words by half the range |
| `WordValues.SignedIs` | rtl/alu.sv:26-30 | the signed reading of a word is the one number of its range congruent to it |
| `WordValues.Signed32Is` | rtl/alu.sv:17-17 | and of its low half |
| `IssHalts.GoesOnIff` | model/iss.cpp:60-272 | the simulator goes on exactly over the encodings RV64IM defines, SYSTEM apart, and over comparisons with other function codes |
| `IssHalts.StopsBecause` | model/iss.cpp:202-205 | it stops for a call, a breakpoint or an illegal instruction, each for exactly its encodings |
| `CoreReserved.OthersPass` | rtl/decode.sv:33-100 | an opcode the decoder does not name moves the program counter to the next word and nothing else |
| `CoreReserved.NoConditionPasses` | rtl/core.sv:51-63 | so do a branch without a condition and a store without a size |
| `Words.ClearBit0Masks` | rtl/core.sv:103-103 | clearing bit 0 is masking with all other bits |
| `Words.ShiftUpMultiplies` | rtl/alu.sv:25-25 | a left shift multiplies by a power of two |
| `Words.ShiftDownDivides` | rtl/alu.sv:29-30 | a right shift divides by it, rounding down, so it keeps the sign |
| `Iss.Simulator.StepOnce` | model/iss.cpp:34-277 | the object after a step is where the step function leads, or halted for its reason, and its trace fields say which instruction ran and what it wrote |
| `Iss.WrittenIsPut` | model/iss.cpp:58-58 | the traced value is exactly the change of the registers |
| `Core.CoreUnit.Clock` | rtl/core.sv:28-111 | wires computed as the source assigns them, then one edge of the core, its memory and its unit: together the next-state function |
| `AsmProof.EncodeReadsBack` | sw/asm.py:140-217 | every register and immediate of every instruction the assembler accepts can be read back by the simulator from its word |
| `AsmProof.EncodeIsKnown` | sw/asm.py:140-217 | every word it writes is an encoding the core and the simulator define |
| `AsmProof.AcceptedIff` | sw/asm.py:140-217 | an instruction is accepted exactly when some word says what it says, and its upper immediate, if positive, has 20 bits |
| `AsmProof.BFormat` | sw/asm.py:99-102 | the scattered branch offset comes back whole |
| `AsmProof.JFormat` | sw/asm.py:109-112 | and the jump offset |
| `AsmLayout.Pass1Packed` | sw/asm.py:246-275 | when .org never goes back, statements do not overlap and labels are addresses passed on the way |
| `AsmLayout.InsnIntact` | sw/asm.py:277-303 | the second pass leaves every instruction whole at its first-pass address |
| `AsmLayout.FetchesWhatWasWritten` | sw/asm.py:240-303 | the simulator fetches there exactly the encoding, and reads every operand back |
| `AsmLayout.JalLands` | sw/asm.py:189-197 | a jal to a label, executed where it was placed, goes to the label |
| `AsmLayout.BranchLands` | sw/asm.py:179-187 | a branch to a label, executed where it was placed in any state, goes to the label exactly when the simulator takes it |
| `AsmLayout.GapsAreZero` | sw/asm.py:280-303 | bytes no statement covers are zero |
| `AsmImage.DWordIntact` | sw/asm.py:292-295 | the eight bytes at the address of a .dword, least significant first, are its value modulo 2^64, a label standing for its address, and the simulator loads that doubleword from there |
| `AsmImage.WordIntact` | sw/asm.py:288-291 | the four of a .word are its value modulo 2^32, and so is the word loaded |
| `AsmImage.ImageExtent` | sw/asm.py:277-303 | the image is exactly as long as the first pass says, and zero between statements |
| `AsmImage.BelowZero` | sw/asm.py:290-299 | bytes placed below address 0 replace bytes counted from the end of the image, or are inserted there when they would end at address 0 |
| `AsmImage.FirstPassMeans` | sw/asm.py:246-275 | each line starts where the one before ends: sizes of 4 and 8, an alignment at the next multiple, .org where it says; labels are exactly the names on the lines with those addresses, statements are listed in order with theirs |
| `AsmImage.FirstPassIff` | sw/asm.py:250-269 | the first pass accepts exactly the programs without a label defined twice or an alignment to zero |
| `AsmImage.SecondPassIff` | sw/asm.py:284-301 | the second pass accepts exactly the programs whose data operands are numbers or known labels and whose instructions are accepted |
| `Asm.AssignAddresses` | sw/asm.py:246-275 | the first-pass loop yields labels and placed statements, or fails, as the pass specification says |
| `Asm.EmitImage` | sw/asm.py:277-303 | the second-pass loop yields the image, or fails, slices with negative bounds included |

## Left out

- Reset inputs: every block starts from its reset state and is not reset again.
- Register arrays in hardware blocks are sequence-valued fields assigned as a
  whole, so update in place and aliasing between them are not modelled; the
  reorder buffer, a fixed vector in the source, is an array.
- L1d.L1dUnit.Clock: does not state the performance counters. They feed nothing
  back, and the writeback counter has two drivers (rtl/cache/l1d.sv:244,
  rtl/cache/l1d.sv:291), so its value is not determined.
- Progress of a miss under endless other misses: the lowest-index arbiter does
  not promise it (rtl/cache/mshr.sv:84-93). What is proved is that no answer is
  lost, doubled or wrong, and that all have come in bounded time once requests
  stop.
- Width of program positions, entry numbers, tags and byte addresses in the
  cache and load/store queue: natural numbers, so wrap-around of addresses at
  2^64 is outside the model. Reorder-buffer indices do wrap.
- Byte order of the golden memory image file, seeds and difference reports
  (sim/cache/l1d/cache_model.h:42-56).
- RTL of the reorder buffer, rename stage and free list: their C++ models stand
  for them; rtl/ooo/rob.sv and the out-of-order core around it are not part of
  this model.
- Branch predictor, frontend, coverage and assertion bindings: the predictor
  (rtl/bp/bp_bimodal_btb.sv) and the frontend (rtl/fe/frontend.sv) hold
  saturating counters, a target table and a pc multiplexer that carry no
  invariant beyond their own ranges, and the bindings only observe.
- Agreement of core and simulator on illegal, reserved and SYSTEM encodings: the
  simulator stops at them, the core passes them by (`IssHalts.GoesOnIff`,
  `CoreReserved.OthersPass`); and on accesses past the top of the 64 KiB image.
- Text handling of the assembler, pseudo-instructions included (sw/asm.py:47-83,
  115-137, 220-237): the model starts from parsed statements.
