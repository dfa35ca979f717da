# Verified model of the GPU-to-host channel and the job scheduler

A Dafny 4.11 model of three parts of the repository, with proofs of what they
guarantee. `dafny verify dfyconfig.toml` checks everything.

**The channel** (`channel.hpp`). Any number of warps push packets into one
device buffer: an atomic addition on the head reserves, a copy fills, an atomic
addition on the tail commits. The first warp whose reservation crosses the end
of the buffer waits for the tail to reach its ticket, rings a doorbell, waits
for the host to clear it and resets tail and head in two writes; the others spin
until the head drops. The host drains the buffer in chunks.

- `ChannelProtocol.dfy`: shared memory, a program counter per warp and for the
  host, one transition per atomic action (the copies go byte by byte on both
  sides, pointers are 64-bit addresses, the conversions to `int` and `uint32_t`
  are written out). A run is any sequence of actions; an action that is not
  possible at its point is skipped. `History` is what an observer writes down:
  the reservations in order, the bytes received, the failed reservations.
- `ChannelInvariant.dfy`: the invariant and its preservation by every step.
- `ChannelDelivery.dfy` (safety), `ChannelProgress.dfy` (liveness and budgets),
  `ChannelCompletion.dfy` (total correctness of a flush), `ChannelReceive.dfy`
  (`recv` as a call, draining in chunks), `ChannelAlignment.dfy` (fixed-size
  packets): the theorems.
- `ChannelConcurrency.dfy`: pushes do overlap, and how far that goes.
- `ChannelOversize.dfy`: packets larger than the buffer, which the code accepts
  and which jam the channel for ever.
- `ChannelMachine.dfy`: the same steps as methods that update fields and an
  array in place, each proved to make the protocol's transition.

**The scheduler** (`cluster_manager.py`, `controller.py`, `job_pool.py`).
Manager threads share one FIFO pool through a check and a pop that are separate
atomic operations. `SchedulerProtocol.dfy` has one transition per such
operation; what a poll reports is an arbitrary input. `SchedulerSafety.dfy`
proves what holds in every run, `SchedulerLimits.dfy` determines exactly when two
tempting properties hold and builds the runs that defeat them otherwise,
`SchedulerTraces.dfy` says what each manager and the check do in every run,
`SchedulerJobs.dfy` accounts for every job from submission to cluster,
`JobPool.dfy` and `Controllers.dfy` are the classes.

**Two arithmetic kernels** (`nvbit_tool.h`, `utils.h`): 64-bit address
generation (`AddressGeneration.dfy`) and global warp numbering
(`WarpNumbering.dfy`).

`Words.dfy` and `Sums.dfy` hold machine integers and sums over warps.

## Findings

- The channel is correct only for packets of at most `buff_size` bytes. A larger
  one is not rejected: in an empty epoch it becomes its own flusher, reads a
  length of zero, returns from `flush` early without resetting the head, and
  from then on every push spins
  (`sky-workspace/nvbit-release/nvbit_release/core/utils/channel.hpp:69-97`).
- `get_next_job` can return None after a check that saw a job, and the manager
  then aborts, because None has no `job_type`; up to M-1 times for M managers
  (`sky-workspace/sky_controller/cluster_manager.py:68-87` and `:121-123`).
- A job whose dispatch raises an exception is lost: it has left the pool, it was
  not sent, and its manager ends, so the check never succeeds after that
  (`sky-workspace/sky_controller/cluster_manager.py:84-87` and `:108-117`).
- The controller's check can succeed while a job is still out on a cluster,
  because a manager finishes on the first of its clusters that reports success
  with the pool empty. The check means "every job was handed out", not "every
  job ended", unless each manager has one cluster
  (`sky-workspace/sky_controller/cluster_manager.py:91-96`,
  `sky-workspace/sky_controller/controller.py:162-174`).
- The controller's error text says clusters may not outnumber managers; the code
  rejects fewer clusters than managers, and the model follows the code
  (`sky-workspace/sky_controller/controller.py:35-38`).
- `gen_mref_addr` uses OR where a sum is meant; the two differ when the scaled
  low word of a 64-bit register pair runs into the high word
  (`sky-workspace/nvbit-release/nvbit_release/core/nvbit_tool.h:46-48`).

## Model

| member | source | states |
|---|---|---|
| `ChannelInvariant.Invariant` | sky-workspace/nvbit-release/nvbit_release/core/utils/channel.hpp:56-116 | after every run of any number of warps and the host, in which no packet exceeds the buffer: one flusher, head and tail count what they should, every byte not still being copied is the reserved one, the host is where the doorbell says |
| `ChannelDelivery.ReceivedIsPrefix` | sky-workspace/nvbit-release/nvbit_release/core/utils/channel.hpp:56-116 | the bytes returned by `recv` are always a prefix of the packets concatenated in reservation order, and include every finished epoch |
| `ChannelDelivery.AllPushesDelivered` | sky-workspace/nvbit-release/nvbit_release/core/utils/channel.hpp:56-116 | with all warps outside `push` and nothing buffered, the received stream is exactly the log, and the log holds each warp's packets once each in program order and nothing else |
| `ChannelDelivery.QuiescentMeansDelivered` | sky-workspace/nvbit-release/nvbit_release/core/utils/channel.hpp:92-116 | nothing buffered and nobody pushing implies everything reserved was received |
| `ChannelDelivery.ClientFlushDelivers` | sky-workspace/nvbit-release/nvbit_release/core/utils/channel.hpp:92-116 | when a client's `flush` returns, everything reserved so far has been received and the channel is empty |
| `ChannelDelivery.WarpOrder` | sky-workspace/nvbit-release/nvbit_release/core/utils/channel.hpp:56-90 | per-producer FIFO: the packets a warp was asked to push are its log entries in order plus at most the push it is in, across retries and flushes, for packets of any size |
| `ChannelDelivery.UniqueFlusher` | sky-workspace/nvbit-release/nvbit_release/core/utils/channel.hpp:69-84 | at most one warp is between choosing the flush branch and resetting the head |
| `ChannelDelivery.FullMeansFlushing` | sky-workspace/nvbit-release/nvbit_release/core/utils/channel.hpp:69-84 | the head is beyond `buff_end` exactly while some warp flushes from inside `push` |
| `ChannelDelivery.TailCountsCommits` | sky-workspace/nvbit-release/nvbit_release/core/utils/channel.hpp:62-89 | tail plus the bytes in flight equals the bytes reserved this epoch, until the tail reset; between the two resets nothing is in flight |
| `ChannelDelivery.TicketMeansWritten` | sky-workspace/nvbit-release/nvbit_release/core/utils/channel.hpp:73-78 | the wait for the tail ends only when no warp is copying and every byte below the ticket is the reserved one |
| `ChannelDelivery.RingFindsDoorbellClear` | sky-workspace/nvbit-release/nvbit_release/core/utils/channel.hpp:93-104 | the device assertion on the doorbell never fails and the length it writes is neither zero nor truncated |
| `ChannelDelivery.PushNeverFlushesNothing` | sky-workspace/nvbit-release/nvbit_release/core/utils/channel.hpp:93-97 | a flush from inside `push` never takes the zero-byte early return that leaves the head un-reset |
| `ChannelDelivery.RungBufferIsStable` | sky-workspace/nvbit-release/nvbit_release/core/utils/channel.hpp:88-108 | while the doorbell is set the buffer holds the epoch's packets and no device step changes the buffer or the doorbell |
| `ChannelDelivery.StableUntilCleared` | sky-workspace/nvbit-release/nvbit_release/core/utils/channel.hpp:102-108 | over any run during which the doorbell stays set, buffer and epoch are those of the ring |
| `ChannelDelivery.ResetLosesNothing` | sky-workspace/nvbit-release/nvbit_release/core/utils/channel.hpp:110-113 | between the tail reset and the head reset nothing is committed, written or reserved; the new epoch starts with head = tail = buff although failed additions are overwritten |
| `ChannelDelivery.ReservationsTile` | sky-workspace/nvbit-release/nvbit_release/core/utils/channel.hpp:62-72 | the reservations of an epoch lie end to end from the start of the buffer and fit it; they reach up to the head while there is room, and up to the flusher's ticket once it is full |
| `ChannelDelivery.ReservationsDisjoint` | sky-workspace/nvbit-release/nvbit_release/core/utils/channel.hpp:62-89 | two reservations of an epoch never overlap and none leaves the buffer |
| `ChannelDelivery.HeadBound` | sky-workspace/nvbit-release/nvbit_release/core/utils/channel.hpp:62-70 | the head exceeds `buff_end` by at most one largest packet per warp, so the 64-bit additions never wrap |
| `ChannelConcurrency.PushBegins` | sky-workspace/nvbit-release/nvbit_release/core/utils/channel.hpp:56-63 | in any run, an idle warp's push of 1 to 2^32 - 1 bytes begins at once wherever the other warps stand in `push`, as long as no client flush is under way, and it counts as asked for |
| `ChannelConcurrency.AllCopyAtOnce` | sky-workspace/nvbit-release/nvbit_release/core/utils/channel.hpp:61-89 | any packets, one per warp, that fit the buffer together can all be in the copy at the same time, each at its own place |
| `ChannelConcurrency.HeadBoundIsReached` | sky-workspace/nvbit-release/nvbit_release/core/utils/channel.hpp:61-86 | in every channel with a warp some run has all warps late at once and the head one full packet per warp beyond `buff_end`, so the bound on the head is exact |
| `ChannelProgress.NoDeadlock` | sky-workspace/nvbit-release/nvbit_release/core/utils/channel.hpp:61-116 | while a push or flush is unfinished or the host is inside `recv`, some step other than a spin is possible, for any chunk size |
| `ChannelProgress.OneFailPerEpoch` | sky-workspace/nvbit-release/nvbit_release/core/utils/channel.hpp:61-86 | in every epoch every warp fails to reserve at most once, and exactly the late warps have |
| `ChannelProgress.FailsPerWarp` | sky-workspace/nvbit-release/nvbit_release/core/utils/channel.hpp:61-86 | over a run a warp fails at most once per finished epoch, and once more if it is late in the current one |
| `ChannelProgress.FailsPerEpoch` | sky-workspace/nvbit-release/nvbit_release/core/utils/channel.hpp:61-86 | all failed reservations of a run number at most warps times finished epochs, plus the late warps of the current epoch |
| `ChannelProgress.FlushesBounded` | sky-workspace/nvbit-release/nvbit_release/core/utils/channel.hpp:76-84 | head resets never outnumber the reservations they flushed |
| `ChannelProgress.ReservedWasAsked` | sky-workspace/nvbit-release/nvbit_release/core/utils/channel.hpp:56-90 | the reservations, and what the warps have pending, are in packets and in bytes exactly the pushes begun |
| `ChannelProgress.WorkIsBounded` | sky-workspace/nvbit-release/nvbit_release/core/utils/channel.hpp:61-116 | the non-spinning steps of device and host in any run are bounded by the bytes and packets pushed, once per warp |
| `ChannelProgress.MaximalRunCompletes` | sky-workspace/nvbit-release/nvbit_release/core/utils/channel.hpp:61-116 | any scheduler that keeps taking non-spinning steps stops within the budget, and can only stop when every push and flush has returned and the host is outside `recv` |
| `ChannelCompletion.FlushCompletes` | sky-workspace/nvbit-release/nvbit_release/core/utils/channel.hpp:92-116 | total correctness of a client flush: called with all warps outside `push` and followed by non-spinning steps until none is left, it ends within the budget, the host has received exactly what was ever pushed, each warp's packets in program order, and the channel is empty |
| `ChannelCompletion.RoundsComplete` | sky-workspace/nvbit-release/nvbit_release/core/utils/channel.hpp:61-116 | fairness, spinning included: after as many rounds as the budget, each with a turn for every warp and the host in any order, every push, flush and `recv` has returned |
| `ChannelCompletion.FlushCompletesInRounds` | sky-workspace/nvbit-release/nvbit_release/core/utils/channel.hpp:92-116 | the same total correctness of a client flush under such rounds |
| `ChannelOversize.OversizedPushHangs` | sky-workspace/nvbit-release/nvbit_release/core/utils/channel.hpp:69-97 | a packet larger than the buffer pushed into a fresh channel: no continuation ever delivers a byte and the push never returns |
| `ChannelOversize.DeadlockFreeExactly` | sky-workspace/nvbit-release/nvbit_release/core/utils/channel.hpp:56-116 | all runs with packets of up to L bytes are deadlock-free if and only if L is at most `buff_size` |
| `ChannelReceive.RecvConversions` | sky-workspace/nvbit-release/nvbit_release/core/utils/channel.hpp:222-253 | the int and uint32_t conversions in `recv` lose nothing |
| `ChannelReceive.DrainPosition` | sky-workspace/nvbit-release/nvbit_release/core/utils/channel.hpp:241-249 | between calls, read head offset plus doorbell equals the flushed length while draining; afterwards the read head is back at the start |
| `ChannelReceive.DrainCall` | sky-workspace/nvbit-release/nvbit_release/core/utils/channel.hpp:225-252 | in every run with chunks of m bytes, whatever the warps do meanwhile: k calls after a ring, `recv` has returned exactly the first min(k\*m, n) bytes of the flush on top of the earlier epochs, and the call under way returns bytes k\*m to min((k+1)\*m, n) |
| `ChannelReceive.DrainTakesCeiling` | sky-workspace/nvbit-release/nvbit_release/core/utils/channel.hpp:222-253 | in every run with chunks of m bytes, a flush of n bytes takes exactly ceil(n/m) calls that return data; before that the doorbell shows n - k\*m, afterwards doorbell and read head are reset |
| `ChannelReceive.RecvIsAtomic` | sky-workspace/nvbit-release/nvbit_release/core/utils/channel.hpp:222-253 | with any warp steps interleaved, a call returns the bytes and leaves the doorbell and read head it would have had it run alone |
| `ChannelAlignment.ReceivedIsWholePackets` | sky-workspace/nvbit-release/nvbit_release/core/utils/channel.hpp:222-253 | packets of one size and whole-packet (or whole-buffer) chunks: every rung length and every chunk is a multiple of the size, and the stream is the first k packets |
| `ChannelMachine.Channel.constructor` | sky-workspace/nvbit-release/nvbit_release/core/utils/channel.hpp:120-134 | head, tail and read head at the buffer, doorbell clear, buffer contents as allocated |
| `ChannelMachine.Channel.Reserve` | sky-workspace/nvbit-release/nvbit_release/core/utils/channel.hpp:62-85 | the in-place reservation and its branches make the transition of the protocol |
| `ChannelMachine.Channel.CopyOrCommit` | sky-workspace/nvbit-release/nvbit_release/core/utils/channel.hpp:88-89 | one byte of the copy, or the commit, in place |
| `ChannelMachine.Channel.Wait` | sky-workspace/nvbit-release/nvbit_release/core/utils/channel.hpp:74-82 | one turn of either spin loop |
| `ChannelMachine.Channel.Flush` | sky-workspace/nvbit-release/nvbit_release/core/utils/channel.hpp:92-116 | one step of `flush` on the fields |
| `ChannelMachine.Channel.StepHost` | sky-workspace/nvbit-release/nvbit_release/core/utils/channel.hpp:234-252 | one step of `recv` on the fields; the last hands over the chunk |
| `ChannelMachine.Channel.Recv` | sky-workspace/nvbit-release/nvbit_release/core/utils/channel.hpp:222-253 | `recv` in one piece: return value, doorbell and read head, the bytes copied out, and the rest of the caller's buffer untouched |
| `ChannelMachine.Channel.Run` | sky-workspace/nvbit-release/nvbit_release/core/utils/channel.hpp:56-116 | a whole run executed in place ends in the state of the protocol, and what the `recv` calls returned is a prefix of the packets in reservation order |
| `JobPools.JobPool.AddJob` | sky-workspace/sky_controller/job_pool.py:10-12 | appends at the end |
| `JobPools.JobPool.GetNextJob` | sky-workspace/sky_controller/job_pool.py:17-19 | removes and returns the oldest job, None exactly when empty |
| `SchedulerSafety.JobsAreConserved` | sky-workspace/sky_controller/job_pool.py:10-19 | in every interleaving, submitted jobs = jobs handed out in order + remaining pool: FIFO, none lost, none twice |
| `SchedulerSafety.AtMostOneNonePerOtherManager` | sky-workspace/sky_controller/cluster_manager.py:68-87 | over a run of M managers at most M-1 calls of `get_next_job` return None |
| `SchedulerLimits.NoneBoundIsReached` | sky-workspace/sky_controller/cluster_manager.py:68-87 | the bound M-1 is attained for every configuration with jobs |
| `SchedulerLimits.NoNoneExactly` | sky-workspace/sky_controller/cluster_manager.py:68-87 | no run ever gets None if and only if there is one manager or no job |
| `SchedulerSafety.SucceededClusterIsServed` | sky-workspace/sky_controller/cluster_manager.py:68-96 | a cluster that reported success always satisfies the dispatch or the done test, despite two separate emptiness checks |
| `SchedulerSafety.DoneAndEmptyAreStable` | sky-workspace/sky_controller/cluster_manager.py:91-96 | an empty pool stays empty and DONE is never retracted, over any continuation |
| `SchedulerSafety.VerdictMeansAllPopped` | sky-workspace/sky_controller/controller.py:162-174 | a true `_check_all_done`, although read one status at a time, means all managers are done and every submitted job was handed out in order |
| `SchedulerLimits.OneClusterFinishes` | sky-workspace/sky_controller/cluster_manager.py:91-96 | with one cluster per manager no job is out when the check succeeds |
| `SchedulerLimits.VerdictMeansFinishedExactly` | sky-workspace/sky_controller/cluster_manager.py:91-96 | in all runs the check finds no job still out if and only if each manager has one cluster or nothing was submitted |
| `SchedulerTraces.PollsGoRound` | sky-workspace/sky_controller/cluster_manager.py:54-60 | in every run the i-th poll of a manager is of cluster i modulo the number of its clusters |
| `SchedulerTraces.PopsFollowSuccess` | sky-workspace/sky_controller/cluster_manager.py:62-87 | a manager pops, and has a job in hand, only for the cluster it polled last, and only after that one reported success |
| `SchedulerTraces.AnswerDecides` | sky-workspace/sky_controller/cluster_manager.py:56-117 | from every reachable state, what each of the seven kinds of answer leads to when nothing comes between: serve, be done, go on, abort or die, with pool, status and the other managers unchanged otherwise |
| `SchedulerTraces.EndsExactly` | sky-workspace/sky_controller/cluster_manager.py:76-117 | in every interleaving a manager is aborting or ABORT, done or DONE, or gone with status RUNNING, exactly if the observed events say so: exceptions, an empty pop, a failed setup, a failed job before its first pop; a success on an empty pool; a stop or a cluster that is not up |
| `SchedulerTraces.OnlyNonesAbort` | sky-workspace/sky_controller/cluster_manager.py:82-117 | in runs without stops or failures around them, the managers that have failed number exactly the pops that found nothing |
| `SchedulerTraces.MovesBounded` | sky-workspace/sky_controller/cluster_manager.py:54-119 | a manager makes at most six moves per poll and one more, so it never runs on without polling |
| `SchedulerTraces.NeverStuck` | sky-workspace/sky_controller/cluster_manager.py:54-119 | a manager that has not returned or died can be answered or can move |
| `SchedulerTraces.StopIsObeyed` | sky-workspace/sky_controller/cluster_manager.py:43-54 | after a stop, in every continuation, a manager makes at most one more poll, pops only if it was about to, and does not become done unless it was about to say so |
| `SchedulerTraces.CheckLooksAtAll` | sky-workspace/sky_controller/controller.py:162-174 | the check succeeds only after finding every manager done, from first to last, within one call |
| `SchedulerTraces.VerdictComes` | sky-workspace/sky_controller/controller.py:162-174 | once all managers are done the check succeeds after at most one look per manager and one more |
| `SchedulerJobs.DispatchesWhatItPops` | sky-workspace/sky_controller/cluster_manager.py:82-87 | a manager dispatches exactly the jobs it pops, each once and in that order; at most the last is still in hand |
| `SchedulerJobs.SentWhereAsked` | sky-workspace/sky_controller/cluster_manager.py:82-87 | the job sent is the one the manager popped last, and it goes to the cluster it polled last, which reported success |
| `SchedulerJobs.JobsAreAccountedFor` | sky-workspace/sky_controller/cluster_manager.py:82-136 | in every interleaving, and with multiplicity, each submitted job is in the pool, in a manager's hand, sent, or unsent because its dispatch raised an exception (or it is a SETUP job) |
| `SchedulerJobs.VerdictMeansAllSent` | sky-workspace/sky_controller/controller.py:162-174 | when the check succeeds the jobs sent to clusters are exactly the submitted ones, none lost and none repeated |
| `Controllers.SplitClusters` | sky-workspace/sky_controller/controller.py:33-64 | the errors raised, and otherwise equal contiguous ranges that cover every cluster once |
| `Controllers.FillPool` | sky-workspace/sky_controller/controller.py:90-99 | jobs are added in the order of the environment list |
| `Controllers.UndoneIsZero` | sky-workspace/sky_controller/controller.py:148-155 | no manager is counted undone exactly when all are done |
| `Controllers.Controller.SignalDone` | sky-workspace/sky_controller/controller.py:148-155 | sets DONE and counts the others; the count is zero exactly when the check would succeed, and drops by one per first signal |
| `Controllers.Controller.SignalAbort` | sky-workspace/sky_controller/controller.py:157-160 | the status entry becomes ABORT, the others stay, and the check then fails; stopping the others is under "Left out" |
| `Controllers.Controller.TakeBranch` | sky-workspace/sky_controller/cluster_manager.py:68-106 | the if-chain of the poll loop, in place, makes the transition of the protocol |
| `Controllers.Controller.StepManager` | sky-workspace/sky_controller/cluster_manager.py:48-106 | one step of a manager on the shared pool and status dictionary makes the transition of the protocol |
| `Controllers.Controller.ScanOne` | sky-workspace/sky_controller/controller.py:162-174 | one look of the check |
| `Controllers.Controller.Run` | sky-workspace/sky_controller/cluster_manager.py:48-119 | a whole run in place: jobs conserved, and a true verdict means every job was handed out and, if all are EXEC jobs, sent exactly once |
| `AddressGeneration.SignExtends` | sky-workspace/nvbit-release/nvbit_release/core/nvbit_tool.h:37 | the shift pair reads a 32-bit word as two's complement |
| `AddressGeneration.OrAndSum` | sky-workspace/nvbit-release/nvbit_release/core/nvbit_tool.h:47-48 | an OR falls short of the sum by exactly the common bits |
| `AddressGeneration.OperatorsAreBitwise` | sky-workspace/nvbit-release/nvbit_release/core/nvbit_tool.h:47-48 | bit k of the OR is set exactly when bit k of either operand is, with bit k of x as x / 2^k mod 2; the AND likewise with both |
| `AddressGeneration.MrefAddrExactly` | sky-workspace/nvbit-release/nvbit_release/core/nvbit_tool.h:40-68 | the address is RA + RU + imm modulo 2^64 if and only if the bits of the scaled low word beyond 32 do not meet the high word |
| `AddressGeneration.SmallScaleIsExact` | sky-workspace/nvbit-release/nvbit_release/core/nvbit_tool.h:46-51 | a non-negative stride keeping the scaled low word below 2^32 is enough |
| `AddressGeneration.OverlapIsPossible` | sky-workspace/nvbit-release/nvbit_release/core/nvbit_tool.h:46-48 | with 2^31 scaled by 2 under a high word of 1 the address is wrong, for every other register and immediate |
| `AddressGeneration.GenMrefAddr` | sky-workspace/nvbit-release/nvbit_release/core/nvbit_tool.h:40-68 | the accumulating body computes the address, with the same exact condition |
| `WarpNumbering.WarpIdIdentifies` | sky-workspace/nvbit-release/nvbit_release/core/utils/utils.h:76-90 | same id exactly when same block and same group of 32 linear thread ids |
| `WarpNumbering.WarpIdBound` | sky-workspace/nvbit-release/nvbit_release/core/utils/utils.h:76-90 | ids are below blocks * ceil(threads per block / 32) |
| `WarpNumbering.WarpIdOnto` | sky-workspace/nvbit-release/nvbit_release/core/utils/utils.h:76-90 | every number below that bound is the id of some thread |
| `WarpNumbering.LinearOrder` | sky-workspace/nvbit-release/nvbit_release/core/utils/utils.h:77-81 | the linear block and thread numbers run through their boxes row by row and plane by plane |
| `WarpNumbering.WarpIdOrder` | sky-workspace/nvbit-release/nvbit_release/core/utils/utils.h:76-90 | ids are ordered by block, then by group of 32 within the block; with the bound and every id in use this fixes each id |
| `WarpNumbering.GlobalWarpIdExactly` | sky-workspace/nvbit-release/nvbit_release/core/utils/utils.h:76-90 | the 32-bit computation gives the intended id for all threads of a launch if and only if at most 2^31 warps are launched |
| `WarpNumbering.GlobalWarpIdOrder` | sky-workspace/nvbit-release/nvbit_release/core/utils/utils.h:76-90 | up to 2^31 warps the 32-bit ids lie between 0 and the number of warps and have that same order |
| `WarpNumbering.GlobalWarpIdDistinct` | sky-workspace/nvbit-release/nvbit_release/core/utils/utils.h:76-90 | up to 2^32 warps the 32-bit ids still identify warps |

## Left out

- Memory model: every volatile access and `atomicAdd` is one sequentially consistent step; the fences are assumed to provide that.
- Client `flush()` while a warp is inside `push`, and pushes started during a client flush: excluded by the transitions `StartFlush` and `StartPush`, as the tools call it from a kernel of its own.
- Address space: `Config.Valid` assumes a non-null buffer and room for one buffer length per warp behind it; `Roomy` in the oversize theorems assumes room for 2^32 bytes per warp.
- Infinite runs: runs are finite, and progress is stated by budgets, of non-spinning steps or of rounds; a scheduler that forgets a warp or the host for ever is not covered.
- CUDA calls, streams, thread creation, `destroy` and the error macro: not modelled; the buffer, the doorbell and the copy are.
- ChannelMachine.Channel.Recv: asks for a doorbell and a read head inside the buffer, which is what the invariant gives for every reachable state between two calls.
- What the host does with received records: the receiving loops of the tools are not part of this model.
- Cluster launch, job execution, YAML and environment handling, job names, printing, sleeping and the failed-jobs file: not modelled; a poll's report and the outcome of a dispatch are arbitrary inputs.
- Controllers.Controller.SignalAbort: does not stop the other managers; stopping any manager at any time is an action of the protocol instead. Joining threads and interrupt handling are not modelled.
- A manager thread that dies on a cluster that is not up keeps status RUNNING, one that fails otherwise gets ABORT; nothing is claimed about how the process ends then.
- "Job still out" means a cluster that was sent a job and has not reported the end of a job since; whether a report refers to that very job depends on the cloud service.
- WarpNumbering.GlobalWarpIdExactly: assumes a block of between 1 and 2^31 - 32 threads, which the hardware limit of 1024 implies.
- The other NVBit headers, the tools, the analysis scripts and notebooks, SQL and the trace programs: declarations, plotting, I/O and trivial loops. `ocs_cache_sim` is not part of this model.
