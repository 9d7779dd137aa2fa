# Lock protocols over one-sided RDMA: a Dafny model

The repository implements locks whose clients touch remote memory only by compare-and-swap, fetch-and-add, READ and
WRITE. This project models those protocols, the local latches, the barriers and the queues around them, and proves what
they promise for every run and any number of workers. `dafny verify dfyconfig.toml` checks all of it.

| file | what it models |
|---|---|
| `Words.dfy` | 64-bit words that wrap |
| `TupleLayout.dfy` | the layout of an optimistically locked tuple and the loops over a local copy |
| `OptimisticProtocol.dfy` | `ExclusiveLock` and `OptimisticLock` with FaRM or V2, Header or Footer, as one state machine and its invariant; a WRITE takes its bytes from the worker's live copy |
| `OptimisticLinearizability.dfy`, `RealTimeOrder.dfy` | linearizable reads, serial writers, their order in real time, the consistency experiment |
| `OptimisticExclusion.dfy`, `OptimisticData.dfy` | mutual exclusion of the writers, and that they lose no update, in every configuration |
| `OptimisticDecisions.dfy`, `OptimisticProgress.dfy` | who wins, restarts and accepts, in both directions; undisturbed operations complete |
| `OptimisticPromises.dfy`, `OptimisticCopies.dfy` | exactly which configurations keep these promises, and the run that breaks them in all others |
| `OptimisticWrap.dfy`, `OptimisticThrow.dfy` | the runs that show why the bound of 2^64 overlapping commits is needed, for atomic reads and for the experiment |
| `ReaderWriterLock.dfy`, `ReaderWriterRuns.dfy` | the eight variants of the reader/writer lock, any number of tuples |
| `ReaderWriterDecisions.dfy`, `ReaderWriterProgress.dfy` | whom it admits, in both directions; undisturbed operations complete |
| `TailLock.dfy`, `TailLockRuns.dfy`, `TailRuns.dfy` | the variant with the lock word in the last slot, released by the WRITE; many tuples and the storage node's check |
| `TailDecisions.dfy` | whom the tail lock admits, in both directions; undisturbed operations complete |
| `SendScripts.dfy`, `SendQueue.dfy` | what `lock()` and `unlock()` of every protocol post, poll and store; completion accounting |
| `SendRequests.dfy` | how often each kind of request is posted, and in which order V2 and CRC read again |
| `SendRuns.dfy` | every operation can run to its end; exactly when data has arrived at a reader's checks, and the runs in which it has not |
| `SendPayload.dfy`, `PayloadStability.dfy` | exactly when every WRITE sends what was posted, and the runs in which one does not |
| `SendProjection.dfy` | the scripts and the optimistic machine do the same to a pending WRITE |
| `HybridLatch.dfy`, `HybridRuns.dfy`, `OptimisticLatch.dfy` | the local latches, and runs of undisturbed calls |
| `Barrier.dfy`, `RdmaBarrier.dfy` | the local and the remote barrier |
| `BatchQueue.dfy`, `BatchClients.dfy` | the batch pool with its two intrusive lists, and threads that share it |
| `RingBuffer.dfy` | the ring buffer |

## How to read it

Every concurrent component is a state machine: `Enabled` and `Apply` give the steps, `Run` (or `Trace`) the finite runs,
`Inv` the invariant, one lemma per kind of step shows that it is kept, and the main results speak about every state of
every run. Safety alone would also hold of a machine that refuses everything, so each decision is stated in both
directions, traced back to the state in which the deciding word was fetched, and lemmas that return longer runs show that
undisturbed operations complete and what the network is free to do. History variables (commit numbers, clocks, owners, unwrapped counters) sit in the states beside the modelled
words; no guard and no modelled word depends on them. Code that the original runs in place on a buffer or a linked
structure is a method with loops or a class.

## The environment

These are assumptions about the network card and the machine, not results.

- The operations of one queue pair execute and complete in posting order, so a polled completion implies that everything
  posted before it on that queue pair is done. An 8-byte atomic is one step.
- Optimistic tuples: a tuple is a whole number of 64-byte lines and starts on a line, so the padding must be a multiple
  of 64 (the default of 8 in `frontend/optdb_experiment.cpp:27` is not). A WRITE lands line by line at increasing
  addresses, a READ fetches lines in any order, an aligned line is indivisible.
- Reader/writer lock: READ and WRITE tear word by word in any order. Fewer than 2^60 workers.
- Tail lock: the same, except that the lock word of a WRITE lands last. Fewer than 2^63 workers.
- A WRITE of at most 64 bytes is inlined and takes its payload along when it is posted
  (`backend/nam/rdma/CommunicationManager.hpp:34, 54, 272-274`). Any other reads the local copy until it completes.
- `unlock()` does not wait for its WRITE, so its lines land after `unlock()` has returned, but before anything that this
  worker posts later to the same queue pair takes effect.
- Tuples start as zeros; a FaRM reader issues at least one READ (`batch_size` at least 1).
- Local atomics are sequentially consistent. `writeUnlockObsolete` is applied to a latch at most once.
- `double` products are rounded to the nearest number of 53 bits.
- What a `BatchQueue` method does under the latch is one step. The element counter that guards the pops is read before the
  latch is taken; its value is a parameter of the methods and a step of its own in `BatchClients`.

## Results that need a condition

Each is stated in both directions, or with a run that fails without the condition.

- **Optimistic reads and the consistency experiment.** Where fewer than 2^64 commits overlap a read, accepted reads are
  atomic and the experiment does not throw, in every run, if and only if no store of a worker reaches a copy from which
  its WRITE is pending: FaRM, or a header, or two or more copies in turn, or a tuple of one line. Under the same condition
  the version words of an unlocked tuple count its updates, in every run. What fails is V2 with a footer, a single copy
  and two or more lines, which is how `frontend/optdb_experiment.cpp` runs with `--footer --versioning`. The input
  (`TornRun`): reader 1 reads version 0 and lock 0 of the zero tuple and fetches line 0; worker 0 increments the tuple,
  posts it as version 1 and begins to read, which zeroes the version in its copy, so the WRITE lands as version 0; reader
  1 fetches the other lines of the new tuple, reads version 0 and lock 0 again and accepts. Only the version number is lost there: the user's words of an unlocked tuple are the replay of all updates in
  every configuration (`DataIsNeverLost`), for updates that depend on nothing but the user's words.
- **The bound of 2^64.** Without it, the experiment never throws in any run if and only if the protocol is FaRM or the
  tuple one line (`UnboundedNeverThrowsExactly`): a FaRM version counts as the fields of its line do. The input that V2
  with several lines fails on (`IncrementsThrow`): the reader reads version and lock of tuple 0 and fetches line 0; one
  increment; it fetches the other lines; 2^64 - 1 increments; the version is 0 again. Without the bound accepted reads
  are atomic in every run if and only if the protocol is FaRM and the tuple one line (`UnboundedExactly`); in every other
  configuration that keeps payloads a run with exactly 2^64 overlapping commits accepts a tuple that never existed
  (`ProvisoIsSharp`). The bounds of 2^62 latch cycles are sharp as well (`VersionReturns`, `WordReturns`).
- **Payload stability.** Every WRITE sends the bytes that were posted, in every run, if and only if it is inlined, or there
  is one queue pair and the worker alternates between copies or the protocol is not V2 with a footer, or there are two
  queue pairs, the worker alternates between copies and the batch is even. For one queue pair it is the condition of the
  first item (`PayloadConditionsAgree`). What fails, each with two or more lines: V2 Footer's zeroing of a single copy
  (`ZeroingHitsPendingWrite`); with two queue pairs and a single copy, the next reader's READ on the other queue
  (`OtherQueueHitsPendingWrite`); with two queue pairs and an odd batch, a READ that is left over when `unlock()` has
  returned and completes when a writer has the same copy again, however many copies alternate
  (`LateReadHitsPendingWrite`).
- **Completions.** Posted and polled completions match at every return, except for RC on two queue pairs with an odd batch
  above 1, which leaves one completion behind per attempt.
- **Arrival of the data.** When a reader checks what it read, its READs have arrived on every queue if and only if there is
  one queue pair or the batch is even. With batch 1 the data READ is on the queue that is not polled (`DataMayBeLate`);
  with an odd batch above 1, half a batch of earlier attempts leave enough completions to satisfy the poll
  (`LeftoversSatisfyPoll`).
- **`BatchQueue::reset`.** The loop stops when the element counter is 0, so it empties the full list if and only if the
  list was empty or its last batch is not an empty one.
- **Remote barrier.** Nobody passes early, but the waiter compares with one exact value. From a reachable state a waiter can
  still pass if and only if it holds that value or nobody at its stage or before it has been overtaken. Two workers reach a
  state where one waits forever (`WaiterCanBeOvertaken`).

## Model

| member | source | states |
|---|---|---|
| TupleLayout.GenerateConsistencyProof | frontend/OptimisticLocks.hpp:50-55 | in place: exactly the version words of the lines after the first grow by one, modulo 2^64 |
| TupleLayout.CheckConsistencyProof | frontend/OptimisticLocks.hpp:56-68 | no restart if and only if the versions of all lines agree |
| TupleLayout.PrepareUnlock | frontend/OptimisticLocks.hpp:139-141 | the copy that `unlock` posts: each version word plus one, the footer's lock slot cleared, everything else as it was |
| TupleLayout.IncrementFields | frontend/optdb_experiment.cpp:87-92 | the nested loops increment words 3, 4 and 5 of every line and nothing else |
| TupleLayout.IsCorrupt | frontend/optdb_experiment.cpp:51-60 | the flag is set if and only if words 3, 4 and 5 of all lines are not all equal |
| OptimisticProtocol.PublishIsCommit | frontend/OptimisticLocks.hpp:568-596 | what the lock holder posts is one whole modification of the newest tuple |
| OptimisticProtocol.LandMovesLine | frontend/OptimisticLocks.hpp:133-156 | while a WRITE lands, each line is wholly the tuple before or the tuple after it |
| OptimisticProtocol.LinesBehindVersion | frontend/OptimisticLocks.hpp:369-379 | V2's re-read bounds every fetched line: Header because the version line lands first, Footer because of the lock word that is re-read with it |
| OptimisticProtocol.StepKeepsInv | frontend/OptimisticLocks.hpp:111-596 | where no store reaches a pending WRITE: every step of every worker keeps the protocol's invariant |
| OptimisticLinearizability.AcceptsExactly | frontend/OptimisticLocks.hpp:517-536 | where no store reaches a pending WRITE, with fewer than 2^64 overlapping commits: the reader accepts if and only if all lines it fetched, and V2's two versions, belong to one commit and the lock word was read as free |
| OptimisticLinearizability.RunRefinesAtomicTuple | frontend/OptimisticLocks.hpp:542-596 | where no store reaches a pending WRITE: every step of every run is silent or applies one writer's update to the whole committed tuple, at the release of the lock |
| OptimisticLinearizability.AcceptedReadIsLinearizable | frontend/OptimisticLocks.hpp:194-336 | where no store reaches a pending WRITE, with fewer than 2^64 overlapping commits or FaRM with one line: an accepted copy is word for word the committed tuple at one instant between the first and last fetch of its READ, inside its operation; for V2 that instant is the first small READ |
| OptimisticLinearizability.WritersAreSerial | frontend/OptimisticLocks.hpp:111-156 | where no store reaches a pending WRITE: tuple n is, version words included, the replay of the first n published updates; an unlocked tuple is the replay of all |
| OptimisticLinearizability.FaRMVersionsArePrefix | frontend/OptimisticLocks.hpp:49-69 | in every reachable state the line versions are a prefix at n + 1 and a suffix at n modulo 2^64; all n when unlocked |
| OptimisticLinearizability.ConsistencyCheckNeverFails | frontend/optdb_experiment.cpp:43-77 | where no store reaches a pending WRITE: if the writers increment as `run_check` does, no accepted reader reaches the throw; for V2 with several lines with fewer than 2^64 overlapping commits, for FaRM and for one line without any bound |
| OptimisticLinearizability.FieldsCount | frontend/optdb_experiment.cpp:87-92 | after n increments every field is n modulo 2^64, as the version is |
| RealTimeOrder.RunRefinesPublished | frontend/OptimisticLocks.hpp:542-596 | where no store reaches a pending WRITE: every step of every run is silent or, when a writer posts its WRITE, applies its whole update to the newest tuple |
| RealTimeOrder.AcceptedReadIsPublished | frontend/OptimisticLocks.hpp:194-336 | under the conditions of `AcceptedReadIsLinearizable`: an accepted copy is the newest posted tuple of an instant inside the reader's operation |
| RealTimeOrder.ReadSeesEarlierUpdates | frontend/OptimisticLocks.hpp:194-596 | under the same conditions: a read sees every update whose `unlock` has returned before it begins, and none that is posted after it has ended |
| RealTimeOrder.ReadsNeverGoBack | frontend/OptimisticLocks.hpp:194-536 | under the same conditions: of two reads that do not overlap, the later one returns the same tuple or a newer one |
| OptimisticExclusion.AtMostOneHolder | frontend/OptimisticLocks.hpp:112-130 | in every configuration one worker at most is between successful CAS and release, and the lock word is 1 meanwhile |
| OptimisticData.DataIsNeverLost | frontend/OptimisticLocks.hpp:111-156 | in every configuration: the user's words of published tuple n are the replay of the first n updates, and those of an unlocked tuple the replay of all, for updates that depend on the user's words only |
| OptimisticData.IncrementLooksAtData | frontend/optdb_experiment.cpp:87-92 | the experiment's update is of that kind |
| OptimisticDecisions.WinsExactly | frontend/OptimisticLocks.hpp:112-130 | in every configuration the compare-and-swap wins if and only if nobody owns the lock |
| OptimisticDecisions.CommitWords | frontend/OptimisticLocks.hpp:133-156 | a commit makes of each user's word what the update says of the locked tuple, adds one to each version word and frees the lock word |
| OptimisticDecisions.ChecksFirstExactly | frontend/OptimisticLocks.hpp:183-250 | in every configuration V2's check in `lock` restarts if and only if somebody owned the lock at the first small READ, whatever the version is |
| OptimisticDecisions.ChecksLastExactly | frontend/OptimisticLocks.hpp:517-536 | in every configuration V2's last check of the lock finds it free if and only if nobody owned it at the first small READ (Header) or at the last (Footer) |
| OptimisticDecisions.UndisturbedAccepts | frontend/OptimisticLocks.hpp:194-536 | where no store reaches a pending WRITE: a reader accepts after its last check if nobody owned the lock in any state of its operation |
| OptimisticDecisions.PendingComesFirst | frontend/OptimisticLocks.hpp:111-156 | the next operation may begin while the WRITE or the release is pending, but its first request waits for that |
| OptimisticProgress.WriterCompletes | frontend/OptimisticLocks.hpp:568-596 | where no store reaches a pending WRITE: from every reachable state with a free lock an idle worker's update, any update, can complete without a step of anybody else and is what memory then holds |
| OptimisticProgress.ReaderCompletes | frontend/OptimisticLocks.hpp:194-336 | under the same condition an idle worker's read can complete without a restart and returns exactly the tuple in memory |
| OptimisticProgress.OwnerReleases | frontend/OptimisticLocks.hpp:133-156 | under the same condition whoever owns the lock can release it without a step of anybody else |
| OptimisticPromises.NeverThrowsExactly | frontend/optdb_experiment.cpp:39-125 | a reader of the experiment that fewer than 2^64 commits overlap never throws, in every run of increments, if and only if the protocol is not V2 with a footer, or copies alternate, or WRITEs are inlined |
| OptimisticPromises.UnboundedNeverThrowsExactly | frontend/optdb_experiment.cpp:39-125 | however many commits overlap, no reader of the experiment throws, in every run of increments, if and only if the protocol is FaRM or the tuple one line |
| OptimisticThrow.IncrementsThrow | frontend/OptimisticLocks.hpp:369-379 | V2, several lines, payloads kept: a run of increments with exactly 2^64 of them overlapping an accepted reader that throws |
| OptimisticPromises.ReadsAtomicallyExactly | frontend/OptimisticLocks.hpp:221-250 | with fewer than 2^64 overlapping commits every accepted copy is a committed tuple of its run, in every run, under exactly the same condition |
| OptimisticPromises.WholeTupleIsReplayExactly | frontend/OptimisticLocks.hpp:133-156 | an unlocked tuple is, down to its version words, the replay of all published updates, in every run, under exactly the same condition |
| OptimisticPromises.UnboundedExactly | frontend/OptimisticLocks.hpp:56-68 | without a bound on overlapping commits, every accepted copy is a committed tuple, in every run, if and only if the protocol is FaRM with one line |
| OptimisticCopies.TornRun | frontend/OptimisticLocks.hpp:221-227 | the run that fails: V2 Footer, one copy, two or more lines; the accepted copy is torn and the unlocked tuple carries version 0 after one commit |
| OptimisticWrap.ProvisoIsSharp | frontend/OptimisticLocks.hpp:56-68 | in every configuration that keeps payloads, except FaRM with one line: a run with exactly 2^64 overlapping commits in which an accepted copy equals no published tuple |
| ReaderWriterLock.Refill | frontend/locking_benchmark.cpp:267-271 | in place: every payload word becomes the first one plus one |
| ReaderWriterLock.StepKeepsInv | frontend/locking_benchmark.cpp:132-217 | every step of all eight variants keeps the invariant, with words torn in any order |
| ReaderWriterRuns.StepRefinesCounters | frontend/locking_benchmark.cpp:225-288 | each step is silent, an atomic increment at the successful CAS, or an atomic read when the checked copy is released; the copy's words are all equal |
| ReaderWriterRuns.RunRefinesCounters | frontend/locking_benchmark.cpp:220-290 | every run of every variant is a run of atomic counters that start at 0 |
| ReaderWriterRuns.LockWordInRuns | frontend/locking_benchmark.cpp:32-36 | the lock word is 2^60 X + R: X = 1 exactly between a successful CAS and its release, R registered shared attempts; a writer excludes every admitted reader and other writer |
| ReaderWriterRuns.ConservationAtDrain | frontend/locking_benchmark.cpp:53-71 | with empty queues every lock word is 0, each tuple's payload words agree, and the first words add up to the updates modulo 2^64 |
| ReaderWriterDecisions.AdmittedExactly | frontend/locking_benchmark.cpp:176-211 | every reader's test, plain or after a speculative READ: admitted if and only if the tuple had no owner at the fetch-and-add of this attempt, however many readers were registered |
| ReaderWriterDecisions.WinsExactly | frontend/locking_benchmark.cpp:137-155 | every writer's test: won if and only if the tuple had neither owner nor registered reader at the compare-and-swap of this attempt; otherwise it tries again |
| ReaderWriterDecisions.AnyWordMayBeNext | frontend/locking_benchmark.cpp:132-217 | READs and WRITEs transfer their words in any order, and end when none is missing |
| ReaderWriterDecisions.ReleaseComesFirst | frontend/locking_benchmark.cpp:162-217 | the next operation may begin while a release is in the send queue, but its atomic waits for it |
| ReaderWriterProgress.ReaderCompletes | frontend/locking_benchmark.cpp:225-247 | from every reachable state in which the tuple has no owner, an idle worker's read can complete without a step of anybody else, in every variant, and leaves everything as it was |
| ReaderWriterProgress.WriterCompletes | frontend/locking_benchmark.cpp:250-288 | from every reachable state in which the tuple is free, an idle worker's update can complete without a step of anybody else, in every variant; counter and payload are one more, the tuple is free and the update is counted |
| ReaderWriterProgress.SendQueueDrains | frontend/locking_benchmark.cpp:162-217 | what an operation left in the send queue can execute without a step of anybody else, whatever its worker is doing |
| ReaderWriterRuns.AllEqualFromFirst | frontend/locking_benchmark.cpp:235-243 | the reader's loop throws if and only if two payload words differ |
| ReaderWriterRuns.Aggregate | frontend/locking_benchmark.cpp:57-71 | the storage node's loop throws if and only if some tuple's words differ, and otherwise counts the sum of the first words modulo 2^64 |
| ReaderWriterRuns.DisjointExtents | frontend/locking_benchmark.cpp:115-115 | tuples do not overlap each other or the barrier line, for every padding |
| TailLock.RefillBuffer | frontend/locking_benchmark_tail.cpp:231-237 | in place: seven payload words become the first one plus one, the lock slot 0 |
| TailLock.StepKeepsInv | frontend/locking_benchmark_tail.cpp:128-183 | every step keeps the invariant of lock word, admitted readers and payload |
| TailLockRuns.LockWordInRuns | frontend/locking_benchmark_tail.cpp:193-243 | an even word is twice the admitted readers and means no writer, an odd one means exactly one writer and no admitted reader; a release leaves 0 whatever rejected readers had added |
| TailLockRuns.RunRefinesCounter | frontend/locking_benchmark_tail.cpp:207-243 | only a release changes the counter, by one; an admitted reader's checked copy holds the counter in every word |
| TailDecisions.AdmittedExactly | frontend/locking_benchmark_tail.cpp:156-184 | every reader's test: admitted if and only if nobody owned the tuple at the fetch-and-add of this attempt; otherwise it gives up |
| TailDecisions.WinsExactly | frontend/locking_benchmark_tail.cpp:128-150 | every writer's test: won if and only if there was neither owner nor admitted reader at the compare-and-swap of this attempt; otherwise it gives up |
| TailDecisions.ReaderCompletes | frontend/locking_benchmark_tail.cpp:193-218 | from every reachable state without owner an idle worker's read can complete without a step of anybody else and leaves everything as it was |
| TailDecisions.WriterCompletes | frontend/locking_benchmark_tail.cpp:220-243 | from every reachable state with a free tuple an idle worker's update can complete without a step of anybody else; counter and payload are one more and the tuple is free |
| TailRuns.ConservationAtDrain | frontend/locking_benchmark_tail.cpp:60-77 | over any number of tuples: once all operations are over, lock words are 0, payload words agree, and the second words add up to the updates modulo 2^64 |
| TailRuns.PayloadAgrees | frontend/locking_benchmark_tail.cpp:208-215 | the loop throws if and only if two of the seven payload words differ |
| TailRuns.Aggregate | frontend/locking_benchmark_tail.cpp:62-77 | the storage node's loop throws if and only if some payload disagrees, and otherwise counts the second words modulo 2^64 |
| SendScripts.PollLoop | frontend/OptimisticLocks.hpp:318-333 | the loop takes exactly `expected` completions as soon as they have arrived, and no more |
| SendScripts.Discipline | frontend/OptimisticLocks.hpp:194-538 | the requests, polls and stores of every `lock` and `unlock`, for every batch size: each poll is preceded by as many signaled requests as it waits for, with nothing but atomics behind the last of them |
| SendScripts.RcTwoQueuesReads | frontend/OptimisticLocks.hpp:384-391 | the alternating READs of n put n/2 signaled requests, rounded down, on the first queue pair and the rest on the second |
| SendRequests.ReaderRequests | frontend/OptimisticLocks.hpp:194-403 | what one attempt of a reader posts: READs of the tuple, READs of a separate version, atomics and no WRITE, for every protocol and batch size |
| SendRequests.WriterRequests | frontend/OptimisticLocks.hpp:111-156 | a writer posts one compare-and-swap, one READ, one WRITE, and a fetch-and-add if the WRITE does not release the lock |
| SendRequests.RereadIsLast | frontend/OptimisticLocks.hpp:339-379 | V2 and CRC read again after a check, when every READ of `lock` has completed, and post nothing afterwards |
| SendQueue.CompletionAccounting | frontend/OptimisticLocks.hpp:432-494 | at every normal or restart return the unpolled completions of a queue are 0; the second queue of RC with an odd batch above 1 keeps one per attempt |
| SendQueue.DrainedExactly | frontend/OptimisticLocks.hpp:434-463 | between operations the queues are drained if and only if no such attempt was made |
| SendQueue.PollsAreBounded | frontend/OptimisticLocks.hpp:318-333 | no poll asks beyond the 32 entries for batches up to 32, nor for completions that were never requested |
| SendQueue.DataHasArrived | frontend/OptimisticLocks.hpp:380-403 | when an operation checks what it read, no READ or WRITE is pending on its queues, with one queue pair or an even batch |
| SendRuns.OperationReturns | frontend/OptimisticLocks.hpp:318-333 | from every reachable state the operation in progress can run to its end: no script waits for a completion that will not come |
| SendRuns.DataArrivesExactly | frontend/OptimisticLocks.hpp:286-311 | a reader's data has arrived on every queue at every check of every run if and only if there is one queue pair or the batch is even |
| SendRuns.DataMayBeLate | frontend/OptimisticLocks.hpp:301-306 | with two queue pairs and batch 1: after any run between operations, with nothing pending where the data READ goes, the next reader can check while that READ is pending |
| SendRuns.LeftoversSatisfyPoll | frontend/OptimisticLocks.hpp:434-463 | with two queue pairs and any odd batch above 1, a run in which completions of earlier attempts satisfy the poll while the data READs are pending |
| SendPayload.TracePayload | frontend/OptimisticLocks.hpp:380-403 | where copies are kept apart, a pending WRITE still finds in its copy what was posted, belongs to this operation or to the previous one until this one has polled, and READs of the second queue go to the current reader's copy only |
| PayloadStability.PayloadStableExactly | frontend/optmistic_benchmark.cpp:381-423 | every pending WRITE sends the bytes that were posted, in every run, if and only if it is inlined, or with one queue pair two or more copies alternate or the protocol is not V2 with a footer, or with two queue pairs two or more copies alternate and the batch is even |
| PayloadStability.ZeroingHitsPendingWrite | frontend/OptimisticLocks.hpp:221-227 | with a single copy of any two or more lines, a run in which V2 Footer's zeroing changes a pending WRITE |
| PayloadStability.OtherQueueHitsPendingWrite | frontend/OptimisticLocks.hpp:380-391 | with two queue pairs, any batch above 1 and a single copy of two or more lines, a run in which the next reader's READ on the second queue changes a pending WRITE |
| PayloadStability.LateReadHitsPendingWrite | frontend/OptimisticLocks.hpp:434-463 | with two queue pairs, any odd batch and any number of copies of two or more lines, a run in which a READ left over from an earlier operation changes a pending WRITE |
| PayloadStability.PayloadConditionsAgree | backend/nam/rdma/CommunicationManager.hpp:262-282 | the condition of the optimistic protocols' machine is exactly the payload stability of the worker's scripts |
| SendProjection.ScriptRunProjects | backend/nam/rdma/CommunicationManager.hpp:262-282 | in every run of the scripts of FaRM and V2, the bytes that the pending WRITE sends follow the automaton: posted only when none is pending, with the bytes of the copy; cleared by V2 Footer's zeroing only, with a single copy and no inlining; otherwise unchanged until it completes |
| SendProjection.WorkerRunProjects | frontend/OptimisticLocks.hpp:133-156 | in every run of the optimistic machine, the same automaton gives the bytes of each worker's pending WRITE |
| HybridLatch.LatchIsSound | backend/nam/syncprimitives/HybridLatch.hpp:97-148 | no `ensure` fails, bit 1 is set exactly inside an exclusive section, and sections exclude each other and all shared holders |
| HybridLatch.ValidatedReadSawNoSection | backend/nam/syncprimitives/HybridLatch.hpp:213-223 | a version read unlatched that later compares equal saw no exclusive section in between, within 2^62 latch cycles |
| HybridRuns.VersionReturns | backend/nam/syncprimitives/HybridLatch.hpp:213-223 | a run with exactly 2^62 latch cycles between a reference and an upgrade that succeeds although another thread was inside |
| HybridLatch.LatchesOptimisticExactly | backend/nam/syncprimitives/HybridLatch.hpp:213-221 | an optimistic latch is refused if and only if an exclusive section is open, and otherwise gives the present version |
| HybridLatch.ValidatesExactly | backend/nam/syncprimitives/HybridLatch.hpp:223-224 | within 2^62 latch cycles a validation succeeds if and only if the version has not been changed since the reference |
| HybridLatch.UpgradesGoOnExactly | backend/nam/syncprimitives/HybridLatch.hpp:177-201 | within 2^62 latch cycles the first test of either upgrade lets the call go on if and only if the version has not been changed since the reference |
| HybridLatch.TriesExactly | backend/nam/syncprimitives/HybridLatch.hpp:139-155 | a try takes the mutex only if nobody is in the way, never blocks, and a failed one ends the call |
| HybridRuns.LatchAlone | backend/nam/syncprimitives/HybridLatch.hpp:104-111 | from every reachable state with a free mutex `latchExclusive` can end as the holder without a step of anybody else |
| HybridRuns.UpgradeAlone | backend/nam/syncprimitives/HybridLatch.hpp:196-210 | the same for `optimisticUpgradeToExclusive` on an unchanged version |
| HybridRuns.UpgradeToSharedAlone | backend/nam/syncprimitives/HybridLatch.hpp:177-194 | the same for `optimisticUpgradeToShared`, however many hold the latch shared |
| HybridRuns.UnlatchAlone | backend/nam/syncprimitives/HybridLatch.hpp:112-120 | `unlatchExclusive` can end outside with the mutex free |
| HybridRuns.DowngradeAlone | backend/nam/syncprimitives/HybridLatch.hpp:122-137 | a downgrade that nobody disturbs ends as a shared holder of the version that it stored |
| HybridRuns.DowngradeToOptimisticAlone | backend/nam/syncprimitives/HybridLatch.hpp:157-162 | the downgrade to optimistic returns the version that is then stored |
| HybridRuns.SharedAlone | backend/nam/syncprimitives/HybridLatch.hpp:97-101 | `latchShared` can end as a shared holder whenever nobody has the mutex exclusively |
| HybridLatch.DecisionsAreExact | backend/nam/syncprimitives/HybridLatch.hpp:177-210 | the comparison behind an upgrade or downgrade succeeds if and only if nobody else has changed the version since the reference |
| HybridLatch.UpgradeSawNoOtherSection | backend/nam/syncprimitives/HybridLatch.hpp:122-137 | returns the state in which the thread took its reference: after a successful upgrade or downgrade, no other thread was in a section in any state from there to the decision |
| OptimisticLatch.LatchIsSound | backend/nam/syncprimitives/HybridLatch.hpp:27-85 | no `ensure` fails, the latch bit is set exactly while one thread is inside, and at most one is |
| OptimisticLatch.EqualWordSawNoSection | backend/nam/syncprimitives/HybridLatch.hpp:82-83 | an unlatched word that later compares equal saw nobody inside in between |
| OptimisticLatch.WordReturns | backend/nam/syncprimitives/HybridLatch.hpp:53-65 | a run with exactly 2^62 latch cycles between the read and an upgrade that succeeds although another thread was inside |
| OptimisticLatch.LatchesOptimisticExactly | backend/nam/syncprimitives/HybridLatch.hpp:33-41 | an optimistic latch is refused if and only if somebody is inside, also when the latch is obsolete, and otherwise gives the present word |
| OptimisticLatch.ValidatesExactly | backend/nam/syncprimitives/HybridLatch.hpp:82-83 | within 2^62 latch cycles a validation succeeds if and only if nobody has changed the word |
| OptimisticLatch.LatchAlone | backend/nam/syncprimitives/HybridLatch.hpp:43-51 | with nobody inside `tryLatchExclusive` can end inside without a step of anybody else, also when the latch is obsolete |
| OptimisticLatch.UnlatchAlone | backend/nam/syncprimitives/HybridLatch.hpp:74-80 | `unlatchExclusive` can end outside with nobody inside |
| OptimisticLatch.ObsoleteBitIsExact | backend/nam/syncprimitives/HybridLatch.hpp:84-84 | bit 0 of the word is set exactly once the latch has been made obsolete |
| OptimisticLatch.UpgradeIsExact | backend/nam/syncprimitives/HybridLatch.hpp:53-65 | the upgrade succeeds if and only if nobody has changed the word since it was read |
| Barrier.NobodyLeavesEarly | backend/nam/threads/Concurrency.hpp:23-41 | a thread that may leave has been matched by an arrival of every thread and by a finalizer |
| Barrier.SpinTestIsExact | backend/nam/threads/Concurrency.hpp:33-38 | the 8-bit round differs from a waiter's if and only if its round is over; the round is never more than one ahead |
| Barrier.LeavesExactly | backend/nam/threads/Concurrency.hpp:33-38 | in every reachable state a waiting thread may leave if and only if its round is over |
| Barrier.LastExactly | backend/nam/threads/Concurrency.hpp:24-32 | a thread ends the round if and only if all others have arrived before it, and otherwise waits for that round |
| Barrier.CanAlwaysLeave | backend/nam/threads/Concurrency.hpp:23-41 | from every reachable state in which a thread waits, the others can go on until it may leave, for any number of rounds |
| Barrier.OneFinalizerPerRound | backend/nam/threads/Concurrency.hpp:26-31 | finalizers and rounds match, for any number of rounds |
| Barrier.FinalizerRunsAlone | backend/nam/threads/Concurrency.hpp:28-30 | while the finalizer is about to run, every other thread waits in the same round |
| RdmaBarrier.NobodyPassesEarly | frontend/BenchmarkHelper.hpp:505-529 | nobody is past a stage at which somebody has not arrived, whatever the wrap of the word |
| RdmaBarrier.CanPassExactly | frontend/BenchmarkHelper.hpp:518-529 | from a reachable state some continuation lets a waiter pass if and only if it holds the expected value or nobody at its stage or before it has been overtaken |
| RdmaBarrier.OvertakenForever | frontend/BenchmarkHelper.hpp:518-520 | a waiter that has not seen the exact value before somebody arrives at the next stage never passes |
| RdmaBarrier.WaiterCanBeOvertaken | frontend/BenchmarkHelper.hpp:532-555 | two workers reach such a state |
| BatchQueue.PoolSize | backend/nam/utils/BatchQueue.hpp:133-133 | the pool has at least `size / BatchSize` batches, and as many whole ones as fit into 1.1 times that |
| BatchQueue.PoolSizeInDoubles | backend/nam/utils/BatchQueue.hpp:133-133 | up to 2^48 batches, truncating the rounded product with the `double` nearest to 1.1 gives the same number |
| BatchQueue.BatchQueue.constructor | backend/nam/utils/BatchQueue.hpp:133-136 | the pool has the size computed with the oversubscription of 1.1; all batches are in the empty list, the last one at its head |
| BatchQueue.BatchQueue.ElementsExact | backend/nam/utils/BatchQueue.hpp:168-177 | the 64-bit counter equals the elements in the full list, and is 0 if and only if no full batch has one |
| BatchQueue.BatchQueue.TryPushFull | backend/nam/utils/BatchQueue.hpp:198-207 | a held batch becomes the head of the full list, the counter grows by its elements, lists stay acyclic, disjoint and of the recorded sizes |
| BatchQueue.BatchQueue.TryPushEmpty | backend/nam/utils/BatchQueue.hpp:209-218 | a held empty batch becomes the head of the empty list |
| BatchQueue.BatchQueue.TryPopEmpty | backend/nam/utils/BatchQueue.hpp:220-236 | the head of the empty list becomes held; refused exactly when there is none |
| BatchQueue.BatchQueue.PushFullAndTryPopEmpty | backend/nam/utils/BatchQueue.hpp:238-258 | both halves or nothing: false leaves the lists, the counter and the caller's batch as they were |
| BatchQueue.BatchQueue.PushEmptyAndTryPopFull | backend/nam/utils/BatchQueue.hpp:260-288 | both halves or nothing, refused exactly when the counter was 0 before the latch, the latch is taken or the full list is empty |
| BatchQueue.BatchQueue.TryPopFull | backend/nam/utils/BatchQueue.hpp:291-316 | the head of the full list becomes held, refused exactly in the same cases; if nobody was in between, exactly when no element is there or the latch is taken |
| BatchQueue.BatchQueue.Reset | backend/nam/utils/BatchQueue.hpp:138-154 | moves the first batches up to the last non-empty one to the empty list in reverse, empties them, zeroes the counter; clean if and only if the last full batch was not empty; the duplicate check passes |
| BatchQueue.TakesAll | backend/nam/utils/BatchQueue.hpp:143-152 | the loop takes every full batch if and only if the list is empty or its last batch is not |
| BatchQueue.BatchQueue.AssertNoDuplicates | backend/nam/utils/BatchQueue.hpp:179-196 | the histogram check never throws on a valid queue |
| BatchQueue.BatchQueue.AssertNoLeaks | backend/nam/utils/BatchQueue.hpp:162-166 | the sizes add up to the pool if and only if no caller holds a batch |
| BatchClients.OnePlace | backend/nam/utils/BatchQueue.hpp:198-316 | in every interleaving of any number of threads, with the counter read before the latch: a batch is once in one list or with one thread, and nowhere else |
| BatchClients.CounterInRuns | backend/nam/utils/BatchQueue.hpp:168-177 | in every reachable state the counter is the number of elements in the full list, without wrap, and every batch in the empty list is empty |
| BatchClients.RefusalIsJustified | backend/nam/utils/BatchQueue.hpp:291-316 | the condition behind an uncontended pop of a full batch fails only if the full list had no element at an instant inside the call |
| BatchClients.PopFullExactly | backend/nam/utils/BatchQueue.hpp:291-316 | an uncontended `try_pop_full` gains nothing, and changes nothing, only if the full list had no element at an instant inside the call, and otherwise gains exactly its head |
| BatchClients.SwapForFullExactly | backend/nam/utils/BatchQueue.hpp:260-288 | the same for `push_empty_and_try_pop_full`, which gives the empty batch only for a full one |
| BatchClients.ContendedPopsTakeNothing | backend/nam/utils/BatchQueue.hpp:260-316 | while another thread has the latch, neither takes or changes anything |
| BatchClients.PopEmptyExactly | backend/nam/utils/BatchQueue.hpp:220-236 | `try_pop_empty` gains nothing if and only if there is no empty batch, and otherwise the head, which has no element |
| BatchClients.SwapForEmptyExactly | backend/nam/utils/BatchQueue.hpp:238-258 | `push_full_and_try_pop_empty` swaps, or does nothing if and only if there is no empty batch |
| BatchClients.PushesExactly | backend/nam/utils/BatchQueue.hpp:198-218 | a push moves a held batch to the head of its list, and one of a full batch adds its elements to the counter without wrap |
| BatchClients.PopsAlone | backend/nam/utils/BatchQueue.hpp:291-316 | from every reachable state whose full list has an element, a thread without a call in progress can pop its head without a step of anybody else |
| RingBuffer.MaskIsLowBits | backend/nam/utils/BatchQueue.hpp:71-71 | the mask with N - 1 keeps exactly the lowest bits, for every power of two N |
| RingBuffer.WrapKeepsSlot | backend/nam/utils/BatchQueue.hpp:73-76 | the slot of a counter is the same before and after its wrap at 2^64 |
| RingBuffer.RingBuffer.TryPush | backend/nam/utils/BatchQueue.hpp:45-51 | appends to the FIFO, refused exactly when N elements are there, for all counter values |
| RingBuffer.RingBuffer.TryPop | backend/nam/utils/BatchQueue.hpp:53-59 | removes the oldest element, refused exactly when empty, and then changes nothing |
| RingBuffer.RingBuffer.Full | backend/nam/utils/BatchQueue.hpp:62-62 | true if and only if N elements are there |
| RingBuffer.RingBuffer.GetSize | backend/nam/utils/BatchQueue.hpp:63-63 | the wrapped difference is the number of elements |
| RingBuffer.RingBuffer.Empty | backend/nam/utils/BatchQueue.hpp:61-61 | true if and only if no element is there |
| RingBuffer.RingBuffer.Reset | backend/nam/utils/BatchQueue.hpp:64-68 | leaves the empty FIFO |

## Left out

- Concurrent protocols: their steps are functions on values and not methods, because a method cannot be interleaved with
  others; the loops that run in place on one worker's buffer are methods.
- CRC consistency: its guarantee is probabilistic and `crc64` is not part of this model; only what CRC posts and polls is.
- What readers see under `Broken`, `RC` and the batched `ReaderWriterLock::lockShared`: their checks are commented out
  (frontend/OptimisticLocks.hpp:495-516, 656-661). Only their completions are modelled.
- The copy to `user_buffer` (frontend/OptimisticLocks.hpp:62-66): its destination offsets are not a dense packing from the
  third line on.
- The tail lock's `s_order_release` (frontend/locking_benchmark_tail.cpp:186-190): it adds the word index, not the byte
  offset, to the address.
- The scripts beyond their WRITEs: `SendProjection` relates what both machines do to a pending WRITE; the bytes of READs and
  edits are arbitrary in the scripts, so the other steps of the optimistic machine have no counterpart there.
- Liveness under contention: undisturbed operations complete, but that retry loops, spin loops and polls end whatever the
  others do is not claimed.
- `Barrier::wait`'s return value, `HybridLatch::tryLatchShared` called on its own, `Stack` and `SpinLock`: easy members.
- BatchQueue.PoolSize: multiplies by 1.1 over the reals, which is what the `double` product gives up to 2^48 batches
  (`PoolSizeInDoubles`); beyond that its rounding is not modelled. The constructor requires that the elements of all batches
  fit the 64-bit counter.
- BatchQueue.BatchQueue.Reset: states the outcome for one thread only, as the original's loop is not under one latch.
- `BatchQueue` containers are sequences; `RingBuffer` and `Stack` as containers would add nothing to the pool's properties.
- Connection setup, memory registration, verbs calls, profiling, output and process hand-off: foreign calls and I/O.
- Weak memory orders: local atomics are sequentially consistent.
- Copies of these protocols in other programs of the repository (B-tree, NAM and pause experiments).
