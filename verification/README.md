# XKaapi: a verified model of the runtime's protocols

XKaapi is a work-stealing runtime. Its hard parts are small concurrent protocols over a few
shared words, some integer arithmetic about cutting ranges, and a network layer that moves
memory blocks. This project models those parts in Dafny and proves what they are for.

Concurrent code is modelled as a transition system with **one shared-memory access per action**.
A theorem about a protocol quantifies over every sequence of actions (`Exec(.., run).Reached?`),
so over every interleaving of any number of threads. Memory is sequentially consistent: the code
puts full fences at the points where the protocols need them (`src/kaapi.h:2175`, `2255`;
`src/kaapi_atomic.h:572`, `584`). Code that one thread runs by changing fields or arrays is
modelled as classes and methods proved against specification functions.

| file | what it holds |
|---|---|
| `Ranges.dfy`, `Arith.dfy` | half-open ranges, additive measures (size, membership of one iteration), division facts |
| `TheQueue.dfy` | the `(beg, end)` work queue: lock-free pop against locked steal, and the queue object |
| `WorkSplit.dfy`, `WorkDistribution.dfy` | how a loop's range is cut into slices, and how a splitter cuts stolen work |
| `ForeachLoop.dfy`, `ForeachProof.dfy` | the adaptive parallel loop over atomic queues, and its proofs |
| `ForeachPolicy.dfy` | how much workers take: chunks, stolen halves, dealt shares; and when they leave |
| `ForeachBound.dfy` | a bound on the steps that workers take outside the search for a victim |
| `ForeachQueues.dfy` | the loop over the lock-free queues, which simulates the loop over atomic ones |
| `TaskGraph.dfy`, `TaskRun.dfy` | data-flow task lists: building, activation, progress, replay |
| `Barrier.dfy`, `SpinLock.dfy`, `TaskState.dfy` | the three-slot barrier, the decrementing lock with `waitlock`, the task state word |
| `InstrStream.dfy`, `RemoteWrite.dfy` | the double-buffered instruction stream and 1D/2D remote writes through it |
| `BlockCyclic.dfy`, `BlockCyclicQueue.dfy` | the block-cyclic index map, and the queue drained through it |
| `PropertiesText.dfy` | the text form of property lists |

How the pieces fit: `TheQueue.StepRefinesAtomicQueue` shows that every action of the lock-free
queue is one step of an atomic queue, or invisible to it; `ForeachLoop` uses that atomic queue as
a thread's local queue, and `ForeachQueues.Simulates` proves that the loop whose pops, steals and
refills are the single accesses of the lock-free queue has no other behaviour.
`WorkDistribution.Distribution.Init` produces the slices that `TilesConfigure` turns into a
configuration of the loop; `WorkSplit.PlanFits` sizes the splitter's pieces inside the loop. `RemoteWrite.Rdma` writes through the stream of `InstrStream`.

Conservation is stated with `Probe`: `Count` measures a range by its size, `At(i)` by whether it
holds iteration `i`. A law proved for every probe says at once how much work there is and that
each iteration is in exactly one place.

## Where the code differs from what one would expect

- Slices are reserved by thread bit but handed out by position. The two agree exactly under the
  condition of `WorkDistribution.IdentityExactly`; when thread self > 0
  creates a loop of at least n iterations for threads 0 to n - 1, self among them, its own pop and
  the splitter that claims its bit both look up slice 0 (`OtherCreatorServesTwice`). With fewer
  iterations than threads and a creator beyond them, positions agree, but the creator's own entry
  of the table is never set. The loop is therefore modelled for a full thread set
  and thread 0 as its creator, which is what `Distribution.Init` yields for them.
- A pop through a block-cyclic distribution is documented to return the largest contiguous user
  range of the queue of at most `sgrain` (`api/kaapic/kaapic_impl.h:490-494`). It stops at every
  block edge, so the range could sometimes be extended upwards or downwards, and sometimes a later
  piece of the queue is longer. `LargestExactly` says exactly when the promise is kept, and
  `DocumentedRangeMissed` has an input of each kind.
- The pop keeps the end of the block in an `int` (`api/kaapic/kaapic_impl.h:525`) although block
  sizes are 64 bits wide and unchecked. `LimitExactly` says when it still stops where it should;
  `LimitWraps` has two inputs that move the start of the queue to -2^31.
- The block-cyclic map is a bijection in more cases than `B*L` dividing N, and in no others:
  `BijectionExactly`. Sums that do not fit an `int` are excluded there (`FitsInt`); with blocks of
  2^32 iterations the terms wrap around to the identity (`WrapIsIdentity`).
- With `trylock` the lock counter stays at or above `2 - 2N`, and that value is reached
  (`SpinLock.CounterBound`, `BoundIsReached`).
- `InstructionStream::initialize` leaves the read position of the second buffer unset. The first
  sync repairs it; an overflow of the first buffer before the first sync uses it. `FifoExactly`
  states when the stream is in order, and `LastIsLost` gives, for every capacity, a run that loses
  an instruction.
- A remote write computes both strides with the source's word size and never compares the two word
  sizes. `RemoteWriteExactly` states when it leaves every byte outside the destination alone, and
  when every element arrives: not only for `lda >= size[1]` at the destination, also when both
  sides have the same `lda`. The debug assertion that both `size[1]` agree
  (`network/kaapi_network.cpp:182`) follows from the argument checks unless `size[0]` is 0
  (`AcceptsExactly`, `NoRowsAnyColumns`).
- The loader treats the last line once more when blanks follow it, because a failed `getline`
  leaves the line buffer as it was; this is harmless, and part of the model. A line whose value is
  empty or blank raises an out-of-range exception, which the exception specification of `load`
  does not admit: the program ends, and no caller sees the map of that moment.

## Model

| member | source | states |
|---|---|---|
| `TheQueue.StepRefinesAtomicQueue` | src/kaapi.h:2160-2267 | every single access of a pop, slow pop, steal or refill keeps the protocol's shape and is one step of an atomic queue: a pop takes as much as it may from the front, a steal exactly its size from the back, EBUSY only on an empty queue |
| `TheQueue.StepConserves` | src/kaapi.h:2232-2267 | every access conserves returned + in flight + remaining work against what was put in, for each iteration; rollbacks neither lose nor duplicate |
| `TheQueue.RunKeepsInvariant` | src/misc/kaapi_wq_slowpop.c:49-87 | the invariant holds after every interleaving of pops, slow pops, steals and refills |
| `TheQueue.QueueSafety` | src/kaapi.h:2160-2267 | over every interleaving the returned ranges are non-empty, pairwise disjoint, inside the initial range, and together with `[beg, end)` exactly that range when nobody is inside; slow pop never computes a negative size |
| `TheQueue.TestsExactly` | src/kaapi.h:2257-2266 | in the interleaved protocol a steal fails exactly when, at its test, fewer iterations than it asked for lie between `beg` and the `end` it found; a pop takes the slow path exactly when not more than it asked for do |
| `TheQueue.SoloSteal` | src/kaapi.h:2232-2267 | from every quiet state the accesses of a steal that nobody disturbs get exactly its size whenever there is that much, and change nothing otherwise |
| `TheQueue.SoloPop` | src/kaapi.h:2160-2188 | those of a pop get the front of at most its size whenever the queue is not empty, and EBUSY otherwise |
| `TheQueue.SoloRefill` | api/kaapic/kaapic_work.c:1100-1106 | those of a refill put the new range in |
| `WorkQueueObject.WorkQueue.Pop` | src/kaapi.h:2160-2188 | undisturbed, a pop returns the front of at most `max_size` and leaves the rest; EBUSY exactly when empty, ESRCH exactly when the slow path is needed and there is no lock |
| `WorkQueueObject.WorkQueue.SlowPop` | src/misc/kaapi_wq_slowpop.c:49-87 | ESRCH exactly without a lock, EBUSY exactly when empty, otherwise the front of at most `max_size`: the answer the fast path would give |
| `WorkQueueObject.WorkQueue.Steal` | src/kaapi.h:2232-2267 | exactly `size` from the back, or ERANGE and no change exactly when fewer are left |
| `WorkQueueObject.WorkQueue.Size` | src/kaapi.h:2001-2006 | the number of iterations held, never negative |
| `WorkSplit.PlanFits` | api/kaapic/kaapic_work.c:753-767 | the adjusted `nreq` never exceeds the pending requests, a piece has at least `par_grain` iterations, the victim keeps at least a piece for itself, and no larger plan would fit; it is empty exactly below two grains |
| `WorkSplit.Serve` | api/kaapic/kaapic_work.c:797-827 | the served pieces tile the stolen range from its end down, each of `unit_size`, and `last == first` at the end |
| `WorkDistribution.Distribution.ChooseMask` | api/kaapic/kaapic_work.c:369-388 | one slice per thread of the masked set, or the low bits when there are fewer iterations than threads |
| `WorkDistribution.Distribution.FillPositions` | api/kaapic/kaapic_work.c:403-417 | every thread of the mask gets its rank with the creator first, every other thread none; a creator outside the mask keeps its old entry |
| `WorkDistribution.Distribution.FillStarts` | api/kaapic/kaapic_work.c:475-480 | slice bounds, then the end repeated up to the concurrency level |
| `WorkDistribution.Distribution.Init` | api/kaapic/kaapic_work.c:350-494 | for any number of threads up to the maximum, the range is cut into `finalsize` consecutive non-empty slices ending at `last`, slice 0 larger by less than `finalsize`; for thread 0 over all threads, bits, positions and thread ids coincide |
| `WorkDistribution.PositionsAreSlices` | api/kaapic/kaapic_work.c:403-417 | positions number the slices without gap or repetition |
| `WorkDistribution.IdentityExactly` | api/kaapic/kaapic_work.c:403-417 | bits, positions and thread ids agree if and only if the mask is the low bits and the creator, if in it, is thread 0 |
| `WorkDistribution.OtherCreatorServesTwice` | api/kaapic/kaapic_work.c:700-711 | for every creator self with 0 < self < n of a loop on threads 0 to n - 1: the lookup of its own pop and the lookup made after its bit was claimed both give slice 0 |
| `WorkDistribution.TilesConfigure` | api/kaapic/kaapic_work.c:475-493 | such slices are a valid configuration of the loop over the whole range |
| `ForeachProof.NextMoves` | api/kaapic/kaapic_work.c:1133-1207 | each access of `worknext` and of the loop around it moves every iteration the worker held to exactly one place |
| `ForeachProof.PopMoves` | api/kaapic/kaapic_work.c:176-230 | each access of a slice claim moves exactly the claimed slice from the map to the thread, or nothing |
| `ForeachProof.StealKeeps` | api/kaapic/kaapic_work.c:302-333 | a thief takes the back of its victim's queue and nothing else |
| `ForeachProof.BodyMoves` | api/kaapic/kaapic_work.c:1096-1124 | a stolen range is split into a chunk and the new local queue without loss; the body moves its range to the executed ones |
| `ForeachProof.OwnKeeps` | api/kaapic/kaapic_work.c:835-930 | every own access of a worker but a successful steal keeps the loop's invariant |
| `ForeachProof.SplitAloneKeeps` | api/kaapic/kaapic_work.c:661-797 | so does every splitter action that answers nobody: claiming bits, sizing, stealing |
| `ForeachProof.AnswerMoves` | api/kaapic/kaapic_work.c:700-826 | an answer moves a claimed slice or a stolen piece from the splitter to one waiting thread: what one loses the other gains, for every iteration |
| `ForeachProof.StepKeepsInvariant` | api/kaapic/kaapic_work.c:641-930 | every action of every thread keeps the loop's invariant |
| `ForeachProof.RunKeepsInvariant` | api/kaapic/kaapic_work.c:1211-1310 | so does every interleaving |
| `ForeachProof.ExactlyOnceLoop` | api/kaapic/kaapic_work.c:1211-1310 | in every interleaving the ranges given to the body are non-empty and pairwise disjoint, and when any worker has left the loop their union is exactly `[first, last)` |
| `ForeachProof.TerminationCounter` | api/kaapic/kaapic_work.c:1198-1202 | `workremain` is the total minus what was subtracted, equals the work left plus the credit, is at least the sum of all `workdone`, and is 0 only when the body has returned on every iteration; no claimed slice is then held |
| `ForeachProof.ZeroMeansNothingHeld` | api/kaapic/kaapic_work.c:223-227 | the early exits taken on 0 drop nothing |
| `ForeachProof.NoStuckLoop` | api/kaapic/kaapic_work.c:264-289 | while `workremain` is not 0 somebody holds work or credit and can go on; victims are looked for only once the slice map is empty or all work is done |
| `ForeachProof.ProductiveIsEnabled` | api/kaapic/kaapic_work.c:1086-1115 | a worker that is not looking for a victim always has an enabled step |
| `ForeachProof.ServingIsEnabled` | api/kaapic/kaapic_work.c:700-826 | a splitter that holds work always has a request to give it to |
| `ForeachPolicy.SelectProbes` | api/kaapic/kaapic_work.c:285-300 | while work is left a thief probes the victim chosen for it unless that is itself; when none is left it stops looking |
| `ForeachPolicy.ProbeAsksHalf` | api/kaapic/kaapic_work.c:302-318 | a thief tries an initialised victim of which it read more than `par_grain` for half of that, rounded down, and goes on to another one exactly otherwise |
| `ForeachPolicy.UndisturbedSteal` | api/kaapic/kaapic_work.c:302-333 | undisturbed it gets the back half of the queue: what it gets and what it leaves differ by at most one iteration |
| `ForeachPolicy.ChunkExactly` | api/kaapic/kaapic_work.c:1096-1118 | a worker enters the body with `seq_grain` iterations, or all it has at hand if fewer, and keeps the rest in its queue |
| `ForeachPolicy.ChunksBounded` | api/kaapic/kaapic_work.c:1133-1207 | over every interleaving the body is never given more than `seq_grain` iterations |
| `ForeachPolicy.ZeroMeansLeave` | api/kaapic/kaapic_work.c:1141-1148 | once `workremain` is 0 every own step brings a worker nearer to leaving, two from the head of `worknext` and at most six from anywhere |
| `ForeachPolicy.RequestJoins` | api/kaapic/kaapic_work.c:661-684 | while work is left any enrolled thread without a splitter can be asked by any thread outside |
| `ForeachPolicy.ReservedAreServed` | api/kaapic/kaapic_work.c:687-736 | undisturbed, a splitter gives every thread whose request it has and whose slice is unclaimed that slice, whole |
| `ForeachPolicy.SplitterServes` | api/kaapic/kaapic_work.c:742-827 | undisturbed, with an initialised victim of at least two grains, it serves requests with equal pieces, as large or as many as fit, and the victim keeps at least as much as each gets |
| `ForeachBound.OwnUsesFuel` | api/kaapic/kaapic_work.c:1086-1207 | every own step of a worker outside the search for a victim uses up fuel, and no search step adds any |
| `ForeachBound.SplitKeepsFuel` | api/kaapic/kaapic_work.c:641-830 | no splitter step adds fuel |
| `ForeachBound.BoundedWork` | api/kaapic/kaapic_work.c:1211-1310 | over every interleaving the steps outside the search are at most a number fixed by the slices for each iteration and each thread |
| `ForeachQueues.QueueSimulates` | src/kaapi.h:2160-2267 | an access of a pop, steal or refill of a local queue is one step of the loop over atomic queues, or invisible to it |
| `ForeachQueues.QueueKeepsCoupling` | api/kaapic/kaapic_work.c:302-333 | queue accesses keep queues, callers and lock holders in agreement |
| `ForeachQueues.LoopKeepsCoupling` | api/kaapic/kaapic_work.c:835-930 | so do the loop's own steps; nobody is at a queue that is set anew |
| `ForeachQueues.Simulates` | api/kaapic/kaapic_work.c:1211-1310 | every interleaving of queue accesses and loop steps leads to a state that the loop over atomic queues also reaches |
| `ForeachQueues.ExactlyOnceOverQueues` | api/kaapic/kaapic_work.c:1211-1310 | so exactly-once execution holds over the lock-free queues |
| `ForeachQueues.RefillIsFree` | api/kaapic/kaapic_work.c:1096-1106 | a worker refills its queue only after it was found empty, and then waits for nothing but the lock |
| `ForeachQueues.UndisturbedSteal` | api/kaapic/kaapic_work.c:302-333 | the stolen half carried to the single accesses of the lock-free queue |
| `ForeachQueues.WorkerGoesOn` | api/kaapic/kaapic_work.c:835-930 | over the lock-free queues every worker can take a step unless it waits for the lock of one queue |
| `ForeachQueues.HolderGoes` | src/kaapi.h:2232-2267 | and whoever holds the lock of a queue can go on |
| `TaskGraph.FrameTasklist.AllocateTd` | src/kaapi_tasklist.h:393-404 | a new descriptor with an empty activation list; the list stays well built |
| `TaskGraph.FrameTasklist.PushSuccessor` | src/kaapi_tasklist.h:487-506 | one more link at the back of the activation list and one more synchronisation; `wc` stays the number of links to a task, repeated links included, and every chain of links stays what the graph says |
| `ActivationList.List.PushBack` | src/kaapi_tasklist.h:245-254 | appends to the chain of links |
| `ActivationList.List.PopFront` | src/kaapi_tasklist.h:258-267 | removes the oldest link, or null when empty |
| `ActivationList.List.IsEmpty` | src/kaapi_tasklist.h:238-241 | true exactly for the empty chain |
| `TaskRun.ModuloFires` | src/kaapi_tasklist.h:296-299 | within one round the counter is 0 modulo `wc` exactly at its last expected increment |
| `TaskRun.StepKeepsInvariant` | src/kaapi_tasklist.h:649-669 | every step of every activation loop, and a replay, keeps the invariant |
| `TaskRun.DataFlowSafety` | src/kaapi_tasklist.h:594-690 | in every interleaving and round each task is pushed at most once, to one queue, only after all tasks with a link to it have completed, and never with a zero `wc` |
| `TaskRun.ReadyWherePushed` | src/kaapi_tasklist.h:594-647 | a task waits only in a queue it was pushed to |
| `TaskRun.DataFlowProgress` | src/kaapi_impl.h:875-888 | while tasks are left some task can step; at the end of a round the executed count is the number of tasks, each pushed exactly once, and the counter is `(round+1)*wc`, never reset |
| `TaskRun.StepUsesFuel` | src/kaapi_tasklist.h:657-668 | every step uses up part of a finite budget |
| `TaskRun.RoundIsFinite` | src/kaapi_tasklist.h:649-690 | so from any reached state, in any round, the steps before the next replay are bounded |
| `TaskRun.ReplayRefuels` | src/kaapi_tasklist.h:296-299 | every replay has the budget of the first round |
| `Barrier.StepKeepsInvariant` | api/libgomp/libgomp_barrier.c:92-124 | every access of every participant keeps the barrier's invariant |
| `Barrier.BarrierSafety` | api/libgomp/libgomp_barrier.c:92-124 | nobody returns from its k-th wait before all have entered theirs, and episodes never differ by more than one |
| `Barrier.AdvanceFindsCleanSlot` | api/libgomp/libgomp_barrier.c:103-109 | when a cycle is published all threads have arrived, nobody is still clearing, and the new slot is 0 |
| `Barrier.SlotRecycling` | api/libgomp/libgomp_barrier.c:94-109 | a slot is 0 when its cycle becomes current, and the late clear never hits a slot somebody counts in |
| `Barrier.ReleasedStaysReleased` | api/libgomp/libgomp_barrier.c:69-73 | a waiter's test, once true, stays true until it leaves |
| `Barrier.NobodyStuck` | api/libgomp/libgomp_barrier.c:92-124 | in every reachable state some participant can step |
| `Barrier.StepIsProgress` | api/libgomp/libgomp_barrier.c:92-124 | while somebody is still in a wait that all have entered, every step of anybody brings its end nearer |
| `Barrier.WaitIsBounded` | api/libgomp/libgomp_barrier.c:92-124 | from any state in which all have entered their k-th wait, at most six steps a thread are taken before all have returned from it |
| `SpinLock.MutualExclusion` | src/kaapi_atomic.h:530-575 | the counter is 1 exactly when nobody holds the lock and otherwise at most 0 with exactly one holder |
| `SpinLock.OneWayOn` | src/kaapi_atomic.h:542-589 | a thread inside a call always has exactly one next access, and it is never blocked |
| `SpinLock.LockTakesFree` | src/kaapi_atomic.h:542-558 | in any state with a free lock, a thread inside `lock` holds it after at most two steps of its own |
| `SpinLock.TrylockExactly` | src/kaapi_atomic.h:530-540 | an undisturbed `trylock` gets a free lock, and touches nothing when the lock is not free |
| `SpinLock.UnlockFrees` | src/kaapi_atomic.h:561-575 | the holder frees the lock with at most four steps of its own, whatever the counter has dropped to, and clears `_sync` |
| `SpinLock.WaitlockReturns` | src/kaapi_atomic.h:577-589 | a waiter has returned after at most two steps of its own once the lock is free or `_sync` is cleared, and never returns before |
| `SpinLock.WaitlockQuiescence` | src/kaapi_atomic.h:577-589 | when `waitlock` returns, every critical section open when it set `_sync` has reached its unlock, whatever happened in between |
| `SpinLock.CounterBound` | src/kaapi_atomic.h:530-558 | the counter never drops below `1-N` with `lock` alone, nor below `2-2N` with `trylock` |
| `SpinLock.BoundIsReached` | src/kaapi_atomic.h:530-558 | for every N some run reaches each of these bounds |
| `TaskState.ClaimArbitration` | src/kaapi_task.h:415-459 | under any interleaving at most one claim succeeds and its bit stays; LOCKED is set exactly when somebody holds the task lock |
| `TaskState.FirstClaimWins` | src/kaapi_task.h:415-427 | the first claim on a task that has not ended succeeds and stays the only one: the owner's if the owner marked first, else that of the thief in the steal section |
| `TaskState.ExactlyOneClaim` | src/kaapi_task.h:415-427 | once a claim was made with no TERM or MERGE before it, exactly one claim has succeeded |
| `TaskState.ClaimsExactly` | src/kaapi_task.h:415-427 | `markexec` succeeds exactly when no execution mark was made before, `marksteal` exactly when the owner has made none |
| `TaskState.UndisturbedThief` | src/kaapi_task.h:845-849 | an undisturbed thief finds a task stealable exactly when it may be stolen, nothing was marked and nobody holds its lock, and then gets it |
| `TaskState.TaskLockExclusive` | src/kaapi_task.h:445-459 | a free task lock goes to whoever tries, and a held one stays with its holder, whatever the others do, until that thread unlocks it |
| `TaskState.WordIsHistory` | src/kaapi_task.h:415-459 | a bit is set exactly when its mark was made in the run |
| `TaskState.ReadyExactly` | src/kaapi_task.h:857-863 | a task is ready exactly when nothing was marked by owner or thief, or TERM or MERGE was |
| `TaskState.ExecutionBitsStay` | src/kaapi_task.h:415-443 | from any point of a run to any later one no execution bit is lost |
| `TaskState.BitsStay` | src/kaapi_task.h:445-459 | only unlock clears a bit, and only LOCKED |
| `TaskState.UnserialisedThievesBothWin` | src/kaapi_task.h:424-427 | without the lock around test and mark two thieves both succeed |
| `TaskState.StolenIsReadyWhenMarked` | src/kaapi_task.h:857-863 | a stolen task is ready exactly when TERM or MERGE is marked |
| `InstrStream.FifoExactly` | network/kanet_instr.cpp:62-154 | for every capacity, unset position and sequence of calls: after every prefix flushed and pending together are what was inserted, if and only if the position is 0 or the first sync comes before the first buffer overflows |
| `InstrStream.LastIsLost` | network/kanet_instr.cpp:108-119 | for every capacity, with the position at 1, one insert too many followed by a sync loses that insert |
| `InstrStream.CallKeepsOrder` | network/kanet_instr.h:268-315 | from a stream in order every insert and sync keeps it in order |
| `InstrStream.SyncedIsFlushed` | network/kanet_instr.cpp:124-154 | what was inserted before a sync has reached the device first and in order, ever after |
| `InstrStream.InstructionStream.constructor` | network/kanet_instr.cpp:62-75 | both buffers empty, the second read position as it was; in order if that is 0 |
| `InstrStream.InstructionStream.SwitchBuffer` | network/kanet_instr.cpp:90-120 | a full buffer is flushed whole and writing restarts at 0; otherwise nothing changes; the producer never waits |
| `InstrStream.InstructionStream.Put` | network/kanet_instr.h:298-315 | the instruction is appended to the history and the slot assertion holds |
| `InstrStream.InstructionStream.Sync` | network/kanet_instr.cpp:124-154 | if nothing was lost so far, all that was inserted has been flushed in order and the stream is in order from then on, whatever the unset position; the write position is kept |
| `InstrStream.Produce` | network/kanet_instr.cpp:90-154 | the object does what the value model says for every sequence of calls from every state, and stays in order if it was |
| `RemoteWrite.Rdma` | network/kaapi_network.cpp:136-198 | success exactly for views of the same shape and a route; a refused call inserts nothing, and the transfers of an accepted one follow all earlier instructions and are flushed on return |
| `RemoteWrite.PutRows` | network/kaapi_network.cpp:183-188 | the row loop inserts one transfer a row |
| `RemoteWrite.AcceptsExactly` | network/kaapi_network.cpp:142-168 | the checks accept a call exactly when both views are of the same kind, 1D or 2D, with as many rows and, if any, as many columns, whatever `lda` and word size |
| `RemoteWrite.TransferCount` | network/kaapi_network.cpp:176-188 | one transfer for two contiguous views, otherwise one a row |
| `RemoteWrite.ContiguousSameAsRows` | network/kaapi_network.cpp:176-179 | the single contiguous transfer does to every byte what the row loop would |
| `RemoteWrite.TransfersAreRows` | src/kaapi.h:2470-2479 | so does every accepted call with equal word sizes, 1D views included |
| `RemoteWrite.SendsWholeView` | src/kaapi.h:2455-2466 | an accepted call sends exactly the size of the source view, in one transfer or in rows |
| `RemoteWrite.FrameExactly` | network/kaapi_network.cpp:164-188 | whatever the word sizes, no byte outside the destination view changes, for all memory contents, if and only if the view has room for words of the source's size, row by row |
| `RemoteWrite.RowsInsideExactly` | network/kaapi_network.cpp:183-188 | the arithmetic condition: rows in words of s bytes lie inside the same rows in words of d bytes exactly when `RowsInside` |
| `RemoteWrite.RemoteWriteExactly` | network/kaapi_network.cpp:158-191 | the same, and every element arrives, in words of the source's size and for all memory contents, if and only if the rows of the destination do not overlap or overlap as the source's do |
| `RemoteWrite.CallEffect` | network/kaapi_network.cpp:158-191 | the same on a stream that already carried other instructions |
| `RemoteWrite.WordSizesMatter` | network/kaapi_network.cpp:184-186 | inputs that keep inside, that spill with wider source words, and that spill with narrower ones |
| `RemoteWrite.NoRowsAnyColumns` | network/kaapi_network.cpp:182-182 | views without rows for which the debug assertion fails |
| `BlockCyclic.Kernel2UserIs` | api/kaapic/kaapic_impl.h:471-487 | element r of block q of thread t becomes element r of user block `q*L+t` |
| `BlockCyclic.KernelRoundTrip` | api/kaapic/kaapic_impl.h:471-487 | wherever the map is a bijection, its inverse undoes it |
| `BlockCyclic.UserRoundTrip` | api/kaapic/kaapic_impl.h:471-487 | and the map undoes the inverse |
| `BlockCyclic.BijectionExactly` | api/kaapic/kaapic_impl.h:471-487 | when no sum overflows an `int`, the map is a bijection of `[0,N)` if and only if `B*L` divides N, or L is 1, or N/L is B |
| `BlockCyclic.RegularIsBijective` | api/kaapic/kaapic_impl.h:471-487 | in these cases it is one, without any assumption on the sums |
| `BlockCyclic.NotDivisibleEscapes` | api/kaapic/kaapic_impl.h:471-487 | an input outside the condition whose image leaves the range |
| `BlockCyclic.WrapIsIdentity` | api/kaapic/kaapic_impl.h:471-487 | why the terms have to fit: blocks of 2^32 iterations wrap around to the identity |
| `BlockCyclicQueue.AfterBlock` | api/kaapic/kaapic_impl.h:471-487 | where the user index after a block lies among the kernel indices |
| `BlockCyclicQueue.LimitExactly` | api/kaapic/kaapic_impl.h:525-536 | with the block end kept in an `int`, a pop stops where it should if and only if that end fits, or wraps to something not below the real stop |
| `BlockCyclicQueue.LimitWraps` | api/kaapic/kaapic_impl.h:525-536 | two bijective inputs for which it does not |
| `BlockCyclicQueue.EvenEdgesFit` | api/kaapic/kaapic_impl.h:525-527 | when `B*L` divides N every pop of every queue stops where it should |
| `BlockCyclicQueue.LargestExactly` | api/kaapic/kaapic_impl.h:490-494 | a pop returns a largest contiguous user range of the queue, capped at `sgrain`, if and only if it has `sgrain` iterations, or empties the queue, or the map moves blocks and: after part of a block not more is left than was popped, after a whole block no two blocks of the queue are adjacent in user order |
| `BlockCyclicQueue.StopExactly` | api/kaapic/kaapic_impl.h:520-548 | when a pop returned less than `sgrain`, the range could be extended upwards if and only if the pop stopped at a block edge and the same block of the next thread, or the next block of an identity map, is left |
| `BlockCyclicQueue.DocumentedRangeMissed` | api/kaapic/kaapic_impl.h:490-494 | inputs for which a larger range lies above, below, or elsewhere in the queue |
| `BlockCyclicQueue.LocalWorkqueue.Pop` | api/kaapic/kaapic_impl.h:505-559 | EBUSY exactly when empty; else a user range of 1 to `sgrain` iterations that is the image of exactly the kernel indices removed, a largest one exactly as `LargestExactly` says |
| `BlockCyclicQueue.Drain` | api/kaapic/kaapic_impl.h:505-559 | a kernel range put in the queue and popped until EBUSY gives disjoint ranges whose union is exactly its image |
| `PropertiesText.Properties.Load` | api/kaapixx/ka_properties.cpp:87-146 | the loop computes `LoadText`; an out-of-range exception, which the exception specification turns into the end of the program, is an outcome of its own |
| `PropertiesText.LoadByLines` | api/kaapixx/ka_properties.cpp:97-144 | a text does what its lines do in turn, leading white space left out |
| `PropertiesText.EntryAssigns` | api/kaapixx/ka_properties.cpp:112-142 | a line of a good key, any white space and further text, `=`, any blanks, a value, `;` and any rest sets exactly that key to that value |
| `PropertiesText.BlankEnds` | api/kaapixx/ka_properties.cpp:137-139 | a blank value ends the program |
| `PropertiesText.SkipExactly` | api/kaapixx/ka_properties.cpp:104-136 | a line changes nothing exactly when it is empty, begins with a comment sign, or has no `=` followed by a `;` |
| `PropertiesText.ParsedForms` | api/kaapixx/ka_properties.cpp:112-142 | every line that assigns or ends the program is of one of these two forms |
| `PropertiesText.Properties.Print` | api/kaapixx/ka_properties.cpp:169-178 | every entry with a value is printed once |
| `PropertiesText.Properties.Store` | api/kaapixx/ka_properties.cpp:152-163 | the header comment, then the printed entries |
| `PropertiesText.LoadStored` | api/kaapixx/ka_properties.cpp:87-178 | loading a stored text adds exactly the entries that have a value to any map |
| `PropertiesText.LoadedIsGood` | api/kaapixx/ka_properties.cpp:97-144 | whatever the text, every key and value that load assigns is well formed |
| `PropertiesText.RoundTripExactly` | api/kaapixx/ka_properties.cpp:87-178 | storing and loading gives the map back if and only if all its keys and values are well formed |
| `PropertiesText.LoadStoreLoad` | api/kaapixx/ka_properties.cpp:87-178 | a map that came from any text survives being stored and loaded again |

## Left out

- Weak memory, inline assembly atomics: accesses are atomic steps in one order.
- api/kaapic/kaapic_work_ull.c and the unsigned queue functions: a copy of the signed loop.
- `workerdone`, frame push and pop, adaptive task begin and end, performance events: outside the properties above. `workerdone` is incremented on only one of the two reply paths, so nothing is claimed about it.
- Victim selection policy, choice of the ready queue: arbitrary in the model, so the theorems hold for any policy.
- ForeachProof.ExactlyOnceLoop: for a full thread set created by thread 0. `WorkDistribution.IdentityExactly` says when positions and thread ids agree; the other position tables are not part of the loop's model, so no run with a wrongly served slice is shown.
- WorkDistribution.Distribution.Init: needs a thread in the masked set, because the source divides by their number, and at most the maximal number of processors: `kaapic_foreach_attr_set_threads` stores any value (api/kaapic/kaapic_foreach_attr.c:79-86), and the source then writes past its tables. The NUMA mapping of the other compilation branch is not modelled.
- Grains below 1: `seq_grain` and `par_grain` are at least 1; with a zero `seq_grain` the source returns no work at all (api/kaapic/kaapic_work.c:1144).
- Fairness: progress is stated as an enabled step, as what undisturbed steps achieve, and as a bound on the steps (barrier, task list, loop outside the search for a victim), not as a liveness property of a scheduler.
- TaskRun.DataFlowSafety: covers the links made by `push_successor`. Broadcast lists are not modelled (their construction does not count synchronisations), nor is the initial push of tasks without predecessors through the modulo test, which would divide by zero; the list of initially ready tasks is pushed directly (src/kaapi_tasklist.h:728-746). Counters are unbounded.
- Ready queues as data structures: a push is recorded with its queue, and a task starts from any queue it is in.
- `komp_barrier_wait_start`: its callers do not wait, so the barrier results are for teams that all use `komp_barrier_wait`.
- api/libgomp/libgomp_lock.c: the same counter lock again.
- The thief's side of `kaapi_pop_frame` (src/kaapi_task.h:213-217): only the `waitlock` it relies on is modelled.
- Several producers on one instruction stream, and the waits on a posted buffer: inserts do not take the lock, and a single producer never waits.
- RemoteWrite.Rdma: products of sizes do not wrap around, the source memory does not change while the stream is executed, and the device executes what it is given in order. The stream is in order before the call.
- InstrStream.FifoExactly: entries outside a buffer, which a wrong read position makes the device read, have no modelled content; a range that ends before it starts is empty.
- BlockCyclicQueue.LocalWorkqueue.Pop: for at most 2^31 - 1 iterations, where the map is a bijection and the pop stops where it should (`LimitExactly`); what the source computes from a negative start is not modelled.
- BlockCyclicQueue.Drain: the same for every pop of the range; it is enough that `((last-1)/B+1)*B` fits an `int` (`LastEdgeFits`).
- PropertiesText.RoundTripExactly: a header containing a newline is excluded, since its second line would be loaded like any other. Keys are printed in any order, not only in that of the sorted map. Opening the file is not modelled.
- Network devices, routing, environment parsing, logging, timers, start-up and `kaapic_spawn.c`: input, output and foreign calls. Allocators, hash maps and memory coherence: separate subsystems that none of the protocols above relies on for its guarantees.
