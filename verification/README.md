# xnix: a verified model of the kernel's and init's hard parts

Xnix is a small x86 microkernel with a user-space init. This project models the parts of it whose correctness
does not show in any one function, and proves what they are for:

- **Init's services** (`ServiceGraph`, `ServiceConfig`, `ServiceManager`, `ServiceLaunch`, `ServiceTick`): the
  depth-first cycle check, Kahn's sort with levels, the per-tick state machine over all services, readiness over
  whole histories, what holds at the moment a service is started and what becomes of it, and the recursive cascade
  restart.
- **Pipes** (`Pipe`, `PipeCalls`, `PipeReport`): a byte ring read and written with the lock dropped between bytes, with sleeping
  and waking, as a machine of one reader and one writer whose steps are the stretches under the lock.
- **Kernel log** (`Kmsg`): variable-length records in a wrapping byte ring, with eviction and readers.
- **Scheduler** (`RoundRobin`, `Scheduler`, `SchedulerRun`, `SchedulerWait`): run queue, blocked list and zombie
  list sharing one `next` link on one CPU, refining a queue of threads, with a waiting bound over every sequence of
  calls, and what ends a wait.
- **Memory** (`PageAllocator`, `Kmalloc`, `ElfLoader`, `ElfFile`): page ownership under first-fit search, the heap on top of
  it, and the ELF loader whose page-wise and 256-byte-wise copies must add up to one flat memory image.
- **Handles** (`Handles`): reference counts across all process tables, pipe ends, and rights that only shrink
  over every sequence of handle operations.
- **Endpoints** (`Endpoint`, `EndpointHistory`, `EndpointReply`): the synchronous rendezvous of send, call, receive
  and reply, with timeouts, and whom a reply answers.
- **Names** (`VfsPath`, `VfsServer`, `RamfsTree`, `Ramfs`): path resolution, longest-prefix mounts, overlay
  directory listings, and the directory tree of the memory file system with its linked siblings.

`Lists`, `Bytes` and `Wrappers` hold what several modules share: lists threaded through a table of links, bytes
and words in memory, optional values.

State that the system changes in place is a class, and each method states the new state as a function of the
old one; concurrent protocols are machines over values with the theorems about every sequence of their steps.
Whatever comes from outside (time, process ids, failing allocations, directory entries of a backend, the order
in which threads get to move) is an argument, so that every statement holds for all of it.

Several expectations do not hold of the code without a condition. Each has its exact condition proved, with the
inputs on which it fails:

- `bitmap_clear_range` clears pages before the range when the range lies strictly inside one bitmap word
  (`PageAllocator.ClearRangeIsExact`, `PageAllocator.ClearRangeCanOverreach`).
- `kmalloc` hands out a block that is too small when adding the header overflows 32 bits, and `krealloc` then
  copies past its end unless the old block is one page (`Kmalloc.KmallocRoom`, `Kmalloc.ReallocFits`,
  `Kmalloc.KmallocCanBeShort`).
- A handle table grown for a requested slot holds that slot exactly when neither the new capacity nor its size in
  bytes with the block header overflows 32 bits (`Handles.OverrunsIff`, `Handles.HintsOutsideTheTable`).
- A one-way send can report a timeout although its message was received, and a receive although it got one, so
  that a send can succeed whose message nobody reports: the timer may fire while the thread still waits in the
  queue, where the other side finds it. In all histories each of these is excluded exactly when the operation has
  no timeout (`EndpointHistory.OneWayIff`, `EndpointHistory.ReceiveIff`, `EndpointHistory.HandoverIff`, with the
  histories `EndpointHistory.LateSend` and `EndpointHistory.LateReceive`).
- A reply answers the call that its thread has last received, exactly when that call has not returned; otherwise
  it can answer a later call of the same thread (`EndpointReply.ReplyAnswers`, `EndpointReply.StrayReply`).
- A pipe write that cannot read a byte of the user's buffer can report fewer bytes than it put into the pipe; in
  all histories the report is right exactly when that byte is the first one (`PipeReport.ReportIff`,
  `PipeReport.Misreport`).
- A service is started only while everything it requires is up, exactly when it has no start delay or one that
  never ends: the end of a delay looks at the clock alone (`ServiceLaunch.BackedIff`, `ServiceLaunch.LateStart`).
- A timed wait lasts the least number of ticks that cover it, exactly when the conversion of its milliseconds does
  not overflow 32 bits (`SchedulerWait.TimeoutIsRoundedUp`, `SchedulerWait.TimeoutCanBeShort`).
- `..` undoes a step down exactly when the path had fewer than 32 components before it (`VfsPath.UpUndoesDown`).
- A directory listing names exactly the child mounts when all their names fit a directory entry; longer names are
  cut and can come twice (`VfsServer.ListingIsRightIff`, `VfsServer.LongNamesAreCut`).
- A rename keeps the tree exactly when the destination is not inside the moved node
  (`RamfsTree.RenameKeepsTree`, `RamfsTree.RenameCanBreakTheTree`).
- After pages were freed some ownership of the rest fits the bitmap exactly when they made up whole blocks
  (`PageAllocator.ReleaseIff`).
- Forcing a thread to exit keeps every live thread on a list exactly when it is not the running thread
  (`Scheduler.Scheduler.ForceExit`). The kernel's only caller passes over the current thread, so with one CPU the
  other case does not occur.

Where comments in the source and the code disagree the model follows the code; for instance a pipe write may
return an error after a part of its data was accepted, and a file that was created stays when no file handle is
left.

## Model

| member | source | states |
|---|---|---|
| `ServiceGraph.DependencyGraph.DfsCycleCheck` | user/init/svc/svc_graph.c:6-35 | a hit means the graph has a cycle; without one the node and all it depends on are finished, the path buffer is as before and never longer than the number of services |
| `ServiceGraph.DependencyGraph.DetectCycles` | user/init/svc/svc_graph.c:37-54 | reports a cycle iff some walk along dependencies returns to its start |
| `ServiceGraph.BackEdgeIsCycle` | user/init/svc/svc_graph.c:9-16 | an edge back into the current path closes a cycle |
| `ServiceGraph.PushNode` | user/init/svc/svc_graph.c:22-30 | entering a node keeps the search state and the path within the number of services |
| `ServiceGraph.PopNode` | user/init/svc/svc_graph.c:32-34 | leaving a node whose dependencies are finished finishes it |
| `ServiceGraph.FinishedIsAcyclic` | user/init/svc/svc_graph.c:37-54 | when every node is finished there is no cycle |
| `ServiceGraph.StuckSetIsCyclic` | user/init/svc/svc_graph.c:77-103 | a non-empty set of nodes each depending on another of the set contains a cycle |
| `ServiceGraph.DependencyGraph.Relax` | user/init/svc/svc_graph.c:84-95 | after a node is processed exactly the nodes whose last open dependency it was are queued, duplicate edges included |
| `ServiceGraph.DependencyGraph.InitialQueue` | user/init/svc/svc_graph.c:62-74 | the queue starts with exactly the nodes without dependencies |
| `ServiceGraph.EmptyQueueMeansDone` | user/init/svc/svc_graph.c:100-103 | when the queue runs dry every node was processed iff the graph is acyclic, so after a passed cycle check the failure branch is unreachable |
| `ServiceGraph.DependencyGraph.TopologicalSort` | user/init/svc/svc_graph.c:56-108 | succeeds iff the graph is acyclic; the order is then a permutation with every dependency first, and levels are layered |
| `ServiceGraph.LevelIsLongestPath` | user/init/svc/svc_graph.c:77-98 | a node's level is the length of the longest dependency path that starts at it |
| `ServiceConfig.FindByName` | user/init/svc_manager.c:13-20 | the first service of that name, or -1 iff there is none |
| `ServiceConfig.ResolveNames` | user/init/svc/svc_graph.c:123-159 | succeeds iff every name is known and the edges fit; yields one edge per name in order |
| `ServiceConfig.BuildDependencyGraph` | user/init/svc/svc_graph.c:110-172 | succeeds iff all names resolve and the graph is acyclic; order and edges then agree |
| `ServiceManager.LaunchIsLocal` | user/init/svc/svc_scheduler.c:263-281 | starting a service changes nothing for services earlier in the order |
| `ServiceManager.LaunchKeepsSettled` | user/init/svc/svc_scheduler.c:263-281 | a service the launch loop has settled stays settled by later launches |
| `ServiceManager.LaunchesSettle` | user/init/svc/svc_scheduler.c:263-281 | after the launch loop has passed a service, it cannot be pending and startable again |
| `ServiceManager.TickReachesFixpoint` | user/init/svc/svc_scheduler.c:246-282 | after one tick no pending service could be started, from any state and with any process ids and mount results |
| `ServiceManager.SvcManager.CanStartAdvanced` | user/init/svc/svc_graph.c:174-207 | true iff every dependency meets its kind's condition and there is no path to wait for |
| `ServiceManager.SvcManager.StartServiceAt` | user/init/svc/svc_runtime.c:195-241 | the state machine's start step, with success and failure |
| `ServiceManager.SvcManager.ProcessDelays` | user/init/svc/svc_scheduler.c:234-244 | the pass over all services that ends start delays |
| `ServiceManager.SvcManager.TryMountServices` | user/init/svc/svc_scheduler.c:251-253 | the pass over all services that mounts those that reported ready |
| `ServiceManager.SvcManager.IsReadyDepended` | user/init/svc/svc_scheduler.c:17-31 | true iff some service lists this one under `ready` |
| `ServiceManager.SvcManager.CheckReadyTimeouts` | user/init/svc/svc_scheduler.c:33-68 | the pass that fails services whose readiness is overdue |
| `ServiceManager.SvcManager.PropagateFailedRequires` | user/init/svc/svc_scheduler.c:70-92 | the pass that fails pending services with a failed requirement |
| `ServiceManager.SvcManager.TickParallel` | user/init/svc/svc_scheduler.c:246-282 | the whole tick is the composition of its passes and ends with no pending service startable |
| `ServiceManager.SvcManager.HandleReadyNotification` | user/init/svc/svc_notify.c:7-43 | is the notification step |
| `ServiceManager.SvcManager.HandleExitOf` | user/init/svc/svc_runtime.c:296-319 | is the exit step |
| `ServiceManager.SvcManager.HandleStopOf` | user/init/svc/svc_admin.c:67-92 | is the stop step; the reply says whether the service is unknown, already stopped or failed, or now marked, with its state and pid, and which process to kill |
| `ServiceManager.SvcManager.HandleStartOf` | user/init/svc/svc_admin.c:94-117 | is the start step; the reply says whether the service is unknown, already running with its state and pid, or now pending |
| `ServiceManager.SvcManager.HandleRestartOf` | user/init/svc/svc_admin.c:123-240 | is the restart step with its cascade; the service's process is signalled first, then each process the cascade resets, once, and no other |
| `ServiceManager.StepIsSound` | user/init/svc/svc_runtime.c:195-319 | ticks, notifications, exits and admin commands all keep the readiness invariant |
| `ServiceManager.RunIsSound` | user/init/svc/svc_scheduler.c:246-282 | every state of every sequence of steps satisfies it |
| `ServiceManager.ReadyMeansReady` | user/init/svc/svc_notify.c:31-42 | a depended-on service has `ready` set only if it is RUNNING, its current process has reported ready since that start, and its mount, if any, succeeded since |
| `ServiceLaunch.StartedWithItsRequirements` | user/init/svc/svc_scheduler.c:234-282 | in every run, at every moment of a tick at which a service without a delay, or with one that never ends, is started, everything it requires is running, has reported ready since its start and is mounted, and everything it comes after is neither pending nor waiting |
| `ServiceLaunch.StartedAfterReports` | user/init/svc/svc_graph.c:183-188 | in every history, before each start of such a service, everything it requires was started and has reported ready since |
| `ServiceLaunch.CanStartIsBacked` | user/init/svc/svc_graph.c:174-207 | a service that may start has everything it requires up, and everything it comes after has had its turn |
| `ServiceLaunch.NothingIsHeldBack` | user/init/svc/svc_graph.c:174-207 | after a tick no service is pending that has no path to wait for, whose `after` names are neither pending nor waiting and whose `ready` names are past starting and marked ready |
| `ServiceLaunch.LateStart` | user/init/svc/svc_scheduler.c:234-244 | for every other delay a run in which the service is started although what it requires has stopped |
| `ServiceLaunch.BackedIff` | user/init/svc/svc_scheduler.c:234-244 | in all runs of all setups a service is started only with its requirements up, iff its delay is 0 or exceeds every difference of two clock values |
| `ServiceTick.LoopIsLocal` | user/init/svc/svc_scheduler.c:33-68 | delays, mounts and timeouts treat each service by itself, whatever the others do |
| `ServiceTick.WaitingService` | user/init/svc/svc_scheduler.c:234-244 | a tick starts a waiting service afresh, or fails it, iff its delay has passed in 32-bit time |
| `ServiceTick.ReportedService` | user/init/svc/svc_scheduler.c:251-253 | a tick mounts a running service that has reported ready, or fails it |
| `ServiceTick.RunningService` | user/init/svc/svc_scheduler.c:33-68 | a tick leaves a running service alone that is ready or has run for less than 5 s |
| `ServiceTick.PendingService` | user/init/svc/svc_scheduler.c:263-281 | a tick makes a pending service wait from now on if it has a delay, starts it afresh with the process id given if it has none, fails it, or leaves it as it is |
| `ServiceTick.FailureSpreads` | user/init/svc/svc_scheduler.c:70-92 | a tick fails every pending service one of whose `ready` names has failed |
| `ServiceTick.FailureHasReason` | user/init/svc/svc_scheduler.c:70-92 | a tick fails a pending service only if one of its `ready` names has failed or its start does |
| `ServiceTick.SilentService` | user/init/svc/svc_scheduler.c:33-68 | in every run, a service that does not report after its start runs on for 299 ticks and fails at the 300th if others require it, and counts as ready from the 100th if nobody does |
| `ServiceTick.StillWaits` | user/init/svc/svc_scheduler.c:234-244 | in every run, a delayed service goes on waiting while the clock has not passed its delay |
| `ServiceTick.DelayedService` | user/init/svc/svc_scheduler.c:234-244 | and is started, or its start fails, by the first tick at which it has |
| `ServiceTick.StoppedStays` | user/init/svc/svc_admin.c:67-92 | in every run, a service stopped by hand is stopped when its process ends, and stays so until a start or restart command |
| `ServiceTick.EndedIsReplaced` | user/init/svc/svc_runtime.c:296-319 | in every run, a service never stopped by hand is pending again when its process ends iff it is to be respawned, and is stopped otherwise |
| `ServiceTick.ReportMakesReady` | user/init/svc/svc_notify.c:7-43 | a report by its own process makes a service ready at once, or at the next tick if it has a mount that succeeds; one by another process changes nothing |
| `ServiceTick.RestartResets` | user/init/svc/svc_admin.c:123-240 | a restart leaves the named service and every other it changes pending, not ready and not stopped by hand |
| `ServiceManager.SvcManager.CascadeRestart` | user/init/svc/svc_admin.c:42-61 | terminates on any graph, cyclic ones included; sets to PENDING exactly the active services reached from the target through active dependents; signals each at most once, and only those; changes nothing else |
| `ServiceManager.CascadeIsExact` | user/init/svc/svc_admin.c:42-61 | resetting every active dependent and then its dependents resets exactly the services with a chain of active dependents |
| `ServiceManager.CascadeComposes` | user/init/svc/svc_admin.c:46-57 | a nested cascade extends the outer one without undoing it |
| `ServiceManager.SignalsCompose` | user/init/svc/svc_admin.c:48-50 | the signals of a nested cascade repeat none of the earlier ones |
| `Pipe.PutAppends` | main/kernel/ipc/pipe.c:21-27 | storing a byte appends it to the contents |
| `Pipe.TakeRemoves` | main/kernel/ipc/pipe.c:21-27 | taking a byte removes the first of the contents |
| `Pipe.ReaderStepKeeps` | main/kernel/ipc/pipe.c:180-250 | every step of the reader keeps the pipe invariant |
| `Pipe.WriterStepKeeps` | main/kernel/ipc/pipe.c:254-320 | every step of the writer keeps it |
| `Pipe.EndpointStepKeeps` | main/kernel/ipc/pipe.c:55-141 | ends opened and closed by other threads keep it |
| `Pipe.RunKeepsInv` | main/kernel/ipc/pipe.c:180-320 | it holds throughout every interleaving |
| `Pipe.StreamLaw` | main/kernel/ipc/pipe.c:180-320 | in every interleaving the bytes taken plus the ring contents are the bytes accepted, in order; without copy faults so are the bytes delivered; the ring never overflows |
| `Pipe.ReadResult` | main/kernel/ipc/pipe.c:188-249 | a read returns 0 only when no writer remains and all accepted bytes are drained; a positive result is the number of bytes it delivered |
| `Pipe.WriteResult` | main/kernel/ipc/pipe.c:262-319 | a write returns its length when all of its data was accepted, or EPIPE when no reader is left and a prefix was accepted; after a copy fault it returns the bytes of the finished batches, or EFAULT without any, while all bytes before the fault were accepted |
| `Pipe.FaultHidesBytes` | main/kernel/ipc/pipe.c:275-286 | a history in which a write reports a fault although a byte of it is in the pipe |
| `PipeCalls.EndsAreCounted` | main/kernel/ipc/pipe.c:55-141 | in every run the reader and writer counts are those of the ends opened and closed |
| `PipeCalls.EmptyCalls` | main/kernel/ipc/pipe.c:180-258 | a read or write of nothing is EINVAL and changes nothing |
| `PipeCalls.NoReaderMeansEpipe` | main/kernel/ipc/pipe.c:263-267 | without a read end a write ends with EPIPE and stores nothing at its start, after a wakeup, and after a batch with more to write |
| `PipeCalls.NoReaderNoBatch` | main/kernel/ipc/pipe.c:263-296 | while no read end is open nothing is accepted but the rest of the batch under way |
| `PipeCalls.WriteGoesOn` | main/kernel/ipc/pipe.c:262-320 | with a read end a write copies as much as is left and fits, or waits |
| `PipeCalls.ReadFinds` | main/kernel/ipc/pipe.c:188-249 | a read takes as much as there is and was asked for, or returns 0 without a write end, or waits |
| `PipeCalls.ReadGetsWhatIsThere` | main/kernel/ipc/pipe.c:188-236 | a read without a fault returns exactly what was there when it looked, up to its size |
| `PipeCalls.ReadFault` | main/kernel/ipc/pipe.c:197-216 | a failed copy ends the read with EFAULT and delivers nothing |
| `PipeCalls.PipeHolds` | main/kernel/ipc/pipe.c:21-27 | in every run the pipe holds at most 4095 bytes, those accepted and not taken, and a writer with a reader waits iff it is full |
| `PipeReport.ReportIff` | main/kernel/ipc/pipe.c:270-300 | in all histories in which one place of the user's buffer cannot be read, a failed write reports as many bytes as it put in the pipe, iff there is no such place or it is the first |
| `PipeReport.Misreport` | main/kernel/ipc/pipe.c:270-300 | for every other place a history that gets there in the middle of a batch |
| `Pipe.NoLostWakeup` | main/kernel/ipc/pipe.c:237-248 | a sleeping reader means an empty ring or a writer in mid-batch, a sleeping writer a full ring or a reader in mid-batch, and the two never sleep at the same time |
| `Pipe.ReaderSleepIsBounded` | main/kernel/ipc/pipe.c:275-296 | a reader asleep on data is woken at the end of the writer's batch, which gets shorter with every byte |
| `Pipe.WriterSleepIsBounded` | main/kernel/ipc/pipe.c:197-216 | likewise for the writer |
| `Pipe.AwakeThreadsCanMove` | main/kernel/ipc/pipe.c:180-320 | a thread inside a call that is not asleep always has a step |
| `Kmsg.HeaderRoundTrip` | main/kernel/log/kmsg.c:76-118 | decoding an encoded header gives it back |
| `Kmsg.FirstRecord` | main/kernel/log/kmsg.c:55-62 | a ring slice that encodes entries starts with the header and text of the first, and the rest encodes the others |
| `Kmsg.Kmsg.BufRead` | main/kernel/log/kmsg.c:38-44 | reads the wrapped slice |
| `Kmsg.Kmsg.BufWrite` | main/kernel/log/kmsg.c:46-53 | appends to the wrapped slice |
| `Kmsg.Kmsg.UsedIsSize` | main/kernel/log/kmsg.c:30-36 | the used bytes are the encoded size of the stored entries |
| `Kmsg.Kmsg.DiscardOldest` | main/kernel/log/kmsg.c:55-62 | drops exactly the oldest entry |
| `Kmsg.Kmsg.MakeRoom` | main/kernel/log/kmsg.c:94-97 | evicts exactly the shortest oldest prefix that makes room |
| `Kmsg.Kmsg.WriteRecord` | main/kernel/log/kmsg.c:99-115 | appends the encoding of one entry |
| `Kmsg.Kmsg.LogRaw` | main/kernel/log/kmsg.c:76-118 | the ring is a queue of entries with consecutive numbers: one is added with the next number, recording level, facility and time cut to their widths and the first 256 bytes of the text; the shortest oldest prefix is gone |
| `Kmsg.Kmsg.Locate` | main/kernel/log/kmsg.c:226-235 | the walk from the oldest record arrives at the record with that number |
| `Kmsg.Kmsg.Read` | main/kernel/log/kmsg.c:208-268 | gives the first stored entry at or after the cursor, formatted, and moves the cursor past it; -1 iff there is none, -2 iff the buffer is too small for it |
| `Kmsg.Kmsg.LogThenRead` | main/kernel/log/kmsg.c:76-268 | what is logged and then read parses back to the level, number, time and text given |
| `Kmsg.RecordLayout` | main/kernel/log/kmsg.c:99-115 | which byte of a record holds which field |
| `Kmsg.FormatRoundTrip` | main/kernel/log/kmsg.c:241-261 | the formatted line parses back to level, number, time and text |
| `Kmsg.ApplyIsFaithful` | main/kernel/log/kmsg.c:76-268 | a log or a read keeps the reader's view faithful |
| `Kmsg.ReaderSeesTheLog` | main/kernel/log/kmsg.c:208-268 | for every interleaving of logs and reads a reader gets strictly increasing numbers, each with the text logged under it, skipping only evicted ones |
| `Kmsg.EveryEntryWasLogged` | main/kernel/log/kmsg.c:76-118 | in every interleaving, entry n records the arguments of the log call with n log calls before it |
| `Kmsg.ReaderGetsWhatWasLogged` | main/kernel/log/kmsg.c:208-268 | in every interleaving, each line a reader received parses back to the arguments of the call that logged it |
| `RoundRobin.NextKeepsValid` | main/kernel/sched/policy_rr.c:22-125 | every scheduling step keeps the queue without repetition and the head's slice within bounds |
| `RoundRobin.StepLowersBound` | main/kernel/sched/policy_rr.c:74-125 | a step brings a waiting thread to the CPU or keeps its bound, and a tick lowers it by one |
| `RoundRobin.WaitingIsBounded` | main/kernel/sched/sched.c:225-308 | a thread at position k behind a head with r ticks left gets the CPU within r + (k-1) slices of ticks, whatever the others do |
| `RoundRobin.SliceLasts` | main/kernel/sched/policy_rr.c:109-125 | the running thread keeps the CPU for as many ticks as its slice has, and goes to the end of the queue with the last |
| `SchedulerRun.Perform` | main/kernel/sched/sched.c:64-308 | every call to the scheduler is a step of the round-robin policy, the wakeups it is for, or nothing |
| `SchedulerRun.RunAll` | main/kernel/sched/sched.c:225-308 | over any sequence of calls a thread that waits at position k of the run queue gets the CPU within the ticks the running thread has left plus k-1 slices, unless it is forced out |
| `SchedulerWait.WaitWithTimeout` | main/kernel/sched/blocked.c:203-255 | whatever ticks and wakeups come, a thread that waits with a timeout stays blocked until the first wakeup on its channel or tick at or after its own, is ready from then on, and learns whether it was woken in time |
| `SchedulerWait.Sleep` | main/kernel/sched/sleep.c:75-107 | a sleep lasts until the first tick at or after its end, or a wakeup of that thread |
| `SchedulerWait.FirstEndIs` | main/kernel/sched/blocked.c:103-149 | the event that ends a wait is the first of its kind, if there is one |
| `SchedulerWait.SelectIs` | main/kernel/sched/blocked.c:103-149 | a wakeup takes exactly the blocked threads on that channel, a tick exactly those whose own tick has come |
| `SchedulerWait.TimeoutIsRoundedUp` | main/kernel/sched/blocked.c:223-228 | a timeout is the least number of ticks of 10 ms that cover it, iff the conversion does not overflow |
| `SchedulerWait.TimeoutCanBeShort` | main/kernel/sched/blocked.c:223-228 | a timeout of almost twelve hours that becomes one tick |
| `SchedulerWait.ForceOutAndCleanup` | main/kernel/sched/thread.c:32-57 | a thread that is forced out is freed by the next cleanup |
| `SchedulerWait.ReapIs` | main/kernel/sched/thread.c:32-57 | a cleanup frees exactly the zombies that are detached or joined |
| `Scheduler.Scheduler.RrEnqueue` | main/kernel/sched/policy_rr.c:22-40 | appends the thread, READY and with a full slice |
| `Scheduler.Scheduler.RrDequeue` | main/kernel/sched/policy_rr.c:42-72 | removes the thread wherever it is queued, or nothing |
| `Scheduler.Scheduler.RrPickNext` | main/kernel/sched/policy_rr.c:74-107 | the head, after rotating a head whose slice is used up |
| `Scheduler.Scheduler.RrTick` | main/kernel/sched/policy_rr.c:109-125 | counts the slice down and asks for a switch when it ends |
| `Scheduler.Scheduler.Schedule` | main/kernel/sched/sched.c:64-136 | switches to the next thread of the queue or to idle |
| `Scheduler.Scheduler.Yield` | main/kernel/sched/sched.c:217-223 | refines the queue's rotation, whichever thread is current |
| `Scheduler.Scheduler.Tick` | main/kernel/sched/sched.c:225-308 | wakes exactly the sleepers that are due, in list order, and clears their tick and channel, then refines the queue's tick |
| `Scheduler.Scheduler.BlockCurrent` | main/kernel/sched/blocked.c:219-243 | the blocking itself: moves the running thread to the blocked list with its channel and wakeup tick, and refines leaving the queue |
| `Scheduler.Scheduler.Block` | main/kernel/sched/blocked.c:63-96 | a pending wakeup is used up and the thread goes on; otherwise it blocks on the channel |
| `Scheduler.Scheduler.BlockTimeout` | main/kernel/sched/blocked.c:203-243 | blocks on the channel with a wakeup tick, or uses up a pending wakeup and does not block |
| `Scheduler.Scheduler.Resume` | main/kernel/sched/blocked.c:245-255 | back on the CPU no wakeup is pending any more; reports a timeout iff there was one and the wakeup tick was cleared |
| `Scheduler.Scheduler.WakeMatching` | main/kernel/sched/blocked.c:103-149 | exactly the matching blocked threads join the queue, in list order, with their channel, and at a tick their wakeup tick, cleared; the others stay in order and as they were |
| `Scheduler.Scheduler.WakeupThread` | main/kernel/sched/blocked.c:151-194 | a blocked thread joins the queue; for any other thread no list and no state changes |
| `Scheduler.Scheduler.SleepTicks` | main/kernel/sched/sleep.c:75-104 | moves the running thread to the blocked list with the wakeup tick that many ticks ahead |
| `Scheduler.Scheduler.EndSleep` | main/kernel/sched/sleep.c:106-107 | back on the CPU after a sleep the wakeup tick is cleared |
| `Scheduler.Scheduler.Spawn` | main/kernel/sched/thread.c:130-185 | a new thread joins the queue with nothing pending, neither detached nor joined, or without memory nothing changes |
| `Scheduler.Scheduler.Exit` | main/kernel/sched/thread.c:309-354 | moves the running thread to the zombie list |
| `Scheduler.Scheduler.ForceExit` | main/kernel/sched/thread.c:264-307 | moves any other live thread, now detached, to the zombie list from wherever it is; the running thread ends on no list, so the lists stay right iff another thread is meant |
| `Scheduler.Scheduler.CleanupZombies` | main/kernel/sched/thread.c:32-57 | frees exactly the detached or joined zombies and keeps the others in order |
| `Scheduler.Scheduler.ExactlyOneList` | main/kernel/sched/blocked.c:63-194 | every live thread is on exactly one of the three lists, in the matching state, and `nr_running` is the queue length |
| `PageAllocator.BitmapClearRange` | main/kernel/mm/page_alloc.c:46-69 | clears from the range's start, or from the word's start when the range lies inside one word |
| `PageAllocator.ClearRangeIsExact` | main/kernel/mm/page_alloc.c:46-69 | clearing is exact on every bitmap iff the range starts on a word boundary or reaches the next one |
| `PageAllocator.ClearRangeCanOverreach` | main/kernel/mm/page_alloc.c:53-68 | pages 0 to 2 are freed when 3 and 4 were meant |
| `PageAllocator.Allocator.FindRun` | main/kernel/mm/page_alloc.c:187-209 | one pass finds the lowest free run, or there is none |
| `PageAllocator.Allocator.AllocPage` | main/kernel/mm/page_alloc.c:142-158 | the lowest free low page becomes a block; fails iff there is none |
| `PageAllocator.Allocator.AllocPageHigh` | main/kernel/mm/page_alloc.c:160-176 | the same for high pages |
| `PageAllocator.Allocator.AllocPages` | main/kernel/mm/page_alloc.c:178-213 | the lowest free run of low pages becomes a block; fails iff the count is 0 or no run exists; ownership and the free count stay right |
| `PageAllocator.Allocator.FreeFrame` | main/kernel/mm/page_alloc.c:215-243 | clears the bit of the page with exactly that address; bad and unaligned addresses and free pages change nothing; the free count stays the number of clear bits |
| `PageAllocator.Allocator.FreePage` | main/kernel/mm/page_alloc.c:215-243 | some ownership without new blocks fits the bitmap afterwards iff nothing was freed or the page was a block by itself, and then exactly that block is gone |
| `PageAllocator.Allocator.OnePage` | main/kernel/mm/page_alloc.c:215-243 | freeing one allocated page frees whole blocks iff the page is a block by itself |
| `PageAllocator.Allocator.FreePages` | main/kernel/mm/page_alloc.c:245-253 | clears exactly the pages whose address is one of the consecutive ones, in 32-bit arithmetic; some ownership without new blocks fits the bitmap afterwards iff they made up whole blocks, and then exactly these are gone |
| `PageAllocator.Allocator.FreeBlock` | main/kernel/mm/page_alloc.c:245-253 | gives back exactly the pages of a live block |
| `PageAllocator.ClaimKeepsOwned` | main/kernel/mm/page_alloc.c:195-204 | claiming a free run keeps every page free, reserved or owned by one block |
| `PageAllocator.ReleaseKeepsOwned` | main/kernel/mm/page_alloc.c:245-253 | releasing pages that make up whole blocks keeps every page free, reserved or owned by one block |
| `PageAllocator.ReleaseIff` | main/kernel/mm/page_alloc.c:215-253 | after pages were freed some ownership without new blocks and with the same reserved pages fits the bitmap, iff the allocated ones among them made up whole blocks |
| `PageAllocator.BlocksAreDisjoint` | main/kernel/mm/page_alloc.c:142-213 | two live blocks share no page and hold no reserved one |
| `Kmalloc.KmallocRoom` | main/kernel/mm/kmalloc.c:34-35 | a block handed out is large enough iff adding the header does not overflow |
| `Kmalloc.KmallocCanBeShort` | main/kernel/mm/kmalloc.c:34-35 | a request of 4 GiB less one byte gets one page |
| `Kmalloc.ReallocFits` | main/kernel/mm/kmalloc.c:101-107 | the old contents fit the new block, or none is handed out, iff the size did not overflow or the old block is one page |
| `Kmalloc.Heap.Kmalloc` | main/kernel/mm/kmalloc.c:29-54 | a fresh block at the lowest free run with its header; all other blocks keep their contents; fails exactly when there is no run |
| `Kmalloc.Heap.Kfree` | main/kernel/mm/kmalloc.c:64-76 | frees exactly the block's pages as its header says; all other blocks keep their contents |
| `Kmalloc.Heap.Krealloc` | main/kernel/mm/kmalloc.c:78-110 | the new block starts with the old contents; on failure nothing changes; a block that is large enough stays; the copy leaves the new block iff the size overflows, the old block has several pages and a page is free |
| `ElfLoader.Loader.MemcpyFromPhys` | main/kernel/exec/elf.c:104-133 | gives the bytes; fails iff the range leaves 32-bit memory |
| `ElfLoader.Loader.MemcpyPhysToPhys` | main/kernel/exec/elf.c:135-179 | fails iff a range leaves 32-bit memory; copies through page and buffer chunks like one flat copy unless the destination starts inside the source |
| `ElfLoader.DrawFrames` | main/kernel/exec/elf.c:257-262 | frames drawn from the page allocator are all different and hold no part of a file that lies in pages not free; as many as asked for, or all free high pages |
| `ElfLoader.Loader.MapPage` | main/kernel/exec/elf.c:259-280 | maps a fresh zeroed frame, or changes nothing |
| `ElfLoader.Loader.MapPages` | main/kernel/exec/elf.c:255-282 | maps exactly the missing pages of the range and shows nothing new in them |
| `ElfLoader.Loader.CopySegment` | main/kernel/exec/elf.c:284-311 | the file part shows at its addresses, everything else as before |
| `ElfLoader.Loader.LoadSegment` | main/kernel/exec/elf.c:234-317 | one more segment is in place, with each failure's reason |
| `ElfLoader.Loader.ReadHeader` | main/kernel/exec/elf.c:181-220 | accepts exactly the headers that meet all conditions |
| `ElfLoader.Loader.ReadPhdr` | main/kernel/exec/elf.c:226-232 | reads program header i of the file as it was |
| `ElfLoader.Loader.MapStack` | main/kernel/exec/elf.c:327-370 | sixteen zeroed pages below the top of user space and nothing else changes; succeeds iff the frames suffice and the pages can be mapped; on failure the frames go back and the rest of the address space is as before |
| `ElfLoader.Loader.LoadElf` | main/kernel/exec/elf.c:181-370 | on success the file is acceptable, exactly the pages of segments and stack are mapped, each mapped address outside the stack shows the byte of the last segment whose file part covers it or zero, and the heap starts after the highest segment; the error codes have their reasons |
| `ElfLoader.LastSegmentWins` | main/kernel/exec/elf.c:226-317 | the expected byte is the one of the last covering segment |
| `ElfLoader.UncoveredIsZero` | main/kernel/exec/elf.c:277-280 | it is zero where no file part covers |
| `ElfLoader.SegmentPages` | main/kernel/exec/elf.c:247-255 | every address of a segment lies in one of its pages iff rounding its end up does not overflow |
| `ElfLoader.MapShown` | main/kernel/exec/elf.c:259-280 | a fresh frame changes what is seen at its page only |
| `ElfLoader.CopyShown` | main/kernel/exec/elf.c:290-311 | a copy into a mapped page is seen at its addresses and nowhere else, and the file stays intact |
| `ElfFile.HeaderReads` | main/kernel/exec/elf.c:181-220 | the loader reads entry, offset and number of program headers of a file header as written, and accepts it iff it is a little-endian 32-bit executable for the 80386 whose program headers lie inside the file |
| `ElfFile.SegmentReads` | main/kernel/exec/elf.c:60-69 | it reads a program header as written |
| `ElfFile.CopiesStayInFile` | main/kernel/exec/elf.c:238-253 | every byte copied for an accepted segment is one of the file, and goes to a 32-bit address |
| `ElfFile.StackAddresses` | main/kernel/exec/elf.c:327-370 | the stack is the 64 KiB below the last page of user space |
| `Endpoint.TakeOut` | main/kernel/ipc/endpoint.c:235-242 | the walk that takes a thread out of a queue |
| `Endpoint.SendKeeps` | main/kernel/ipc/endpoint.c:165-279 | a send or call keeps the rendezvous invariant |
| `Endpoint.ReceiveKeeps` | main/kernel/ipc/endpoint.c:336-429 | a receive keeps it |
| `Endpoint.ReplyKeeps` | main/kernel/ipc/endpoint.c:439-515 | a reply to an awaiting caller keeps it |
| `Endpoint.ExpireKeeps` | main/kernel/ipc/endpoint.c:232-274 | a timeout keeps it |
| `Endpoint.StepKeeps` | main/kernel/ipc/endpoint.c:165-515 | every step keeps it |
| `EndpointHistory.NeverBothQueues` | main/kernel/ipc/endpoint.c:177-221 | in every history an endpoint never has waiting senders and waiting receivers |
| `EndpointHistory.ExactlyOneWait` | main/kernel/ipc/endpoint.c:216-275 | a waiting thread is in exactly one of one send queue, one receive queue, awaiting a reply; no other thread is in any |
| `EndpointHistory.OneWayLaw` | main/kernel/ipc/endpoint.c:229-253 | a one-way send that returned 0 was got by exactly one receive; "0 iff got by exactly one" holds of an operation iff it was not taken after its timer fired |
| `EndpointHistory.OneWayIff` | main/kernel/ipc/endpoint.c:229-253 | in all histories a one-way send returned 0 iff it was got by exactly one receive, iff it has no timeout |
| `EndpointHistory.CallLaw` | main/kernel/ipc/endpoint.c:200-279 | a call returned 0 iff it was answered exactly once, and then exactly one receive got it |
| `EndpointHistory.ReceiveLaw` | main/kernel/ipc/endpoint.c:362-429 | a receive that returned 0 got exactly one message, the one its sender sent; a timed-out one got none iff no send chose it after its timer fired |
| `EndpointHistory.ReceiveIff` | main/kernel/ipc/endpoint.c:362-429 | in all histories a receive returned 0 iff it got exactly one message, iff it has no timeout |
| `EndpointHistory.SendReachesReceiver` | main/kernel/ipc/endpoint.c:177-198 | a successful send was got by exactly one receive with its own message; that receive returned 0 iff it was not chosen after its timer fired, and always without a timeout |
| `EndpointHistory.HandoverIff` | main/kernel/ipc/endpoint.c:177-198 | in all histories the receive that got a successful send returned 0, iff that receive has no timeout |
| `EndpointHistory.DeliveryIsLive` | main/kernel/ipc/endpoint.c:362-378 | whenever a message is handed over, its sender has not returned and it is that sender's message |
| `EndpointHistory.FiredSendIsReached` | main/kernel/ipc/endpoint.c:232-249 | for every message a history that ends with its sender in the queue and the timer fired |
| `EndpointHistory.LateSend` | main/kernel/ipc/endpoint.c:232-249 | for every message a history of four steps in which a one-way send of it is received and still reports a timeout |
| `EndpointHistory.FiredReceiveIsReached` | main/kernel/ipc/endpoint.c:395-407 | a history that ends with a receiver in the queue whose timer has fired |
| `EndpointHistory.LateReceive` | main/kernel/ipc/endpoint.c:395-424 | for every message a history of five steps in which its send succeeds and the only receive that got its message reports a timeout |
| `EndpointReply.PeerChanges` | main/kernel/ipc/endpoint.c:186-466 | a delivery makes the sender the receiver's peer, a reply clears the peer of the thread that replies, and nothing else changes one |
| `EndpointReply.HistoryIsPeered` | main/kernel/ipc/endpoint.c:362-378 | in every history a thread's peer is the sender of the last delivery to it |
| `EndpointReply.ReplyAnswers` | main/kernel/ipc/endpoint.c:439-475 | in every history a reply answers a call of the thread last received from: the one received, iff that has not returned |
| `EndpointReply.OrderlyReply` | main/kernel/ipc/endpoint.c:439-475 | without timeouts and replies to named threads, and with replies only to calls, a reply answers exactly the call last received |
| `EndpointReply.StrayReply` | main/kernel/ipc/endpoint.c:439-475 | for every message a history in which a reply answers a later call than the one received |
| `EndpointReply.NewestIsTaken` | main/kernel/ipc/endpoint.c:177-221 | of several waiting threads a rendezvous takes the one that came last |
| `EndpointReply.HistoryOffers` | main/kernel/ipc/endpoint.c:200-276 | in every history a thread offers exactly the message of its send until it is taken, that of its call until the answer, and nothing while it receives or does nothing here |
| `Handles.LiveIffHeld` | main/kernel/handle/object.c:37-63 | an object is live iff some table slot or some reference in flight refers to it |
| `Handles.GetBalanced` | main/kernel/handle/object.c:10-35 | taking a reference keeps the counts balanced |
| `Handles.PutBalanced` | main/kernel/handle/object.c:37-63 | putting one back keeps them, freeing the object with the last |
| `Handles.OpenBalanced` | main/kernel/handle/object.c:70-86 | a new handle keeps them, pipe ends included |
| `Handles.DestroyBalanced` | main/kernel/handle/object.c:92-109 | closing a handle keeps them, pipe ends included |
| `Handles.OverrunsIff` | main/kernel/handle/alloc.c:84-103 | the call goes outside the table iff the new capacity, or its size with the block header, overflows 32 bits and the size came out as 0 or the heap answered with a block |
| `Handles.TableFitsItsBlock` | main/kernel/handle/alloc.c:91-96 | the block the heap answers with, the old one or a new one, holds all entries iff their size with the header does not overflow |
| `Handles.BlockStays` | main/kernel/mm/kmalloc.c:92-97 | a table that grows within its block keeps a block of the size a fresh one would have |
| `Handles.HintsOutsideTheTable` | main/kernel/handle/alloc.c:85-103 | five cases: capacity overflow, size overflow with and without free pages, size zero, overflow by the header alone |
| `Handles.Granted` | main/kernel/handle/transfer.c:47-54 | the rights a transfer leaves are those there were and the mask names |
| `Handles.System.HandleAlloc` | main/kernel/handle/alloc.c:20-69 | the first free slot, or the first slot of the grown table; succeeds iff there is a free slot or the heap gives a block |
| `Handles.System.HandleAllocAt` | main/kernel/handle/alloc.c:74-125 | the slot asked for if it is free, otherwise some free slot, with the exact condition of success; goes outside the table iff the size came out as 0, or the block the heap answered with does not hold the new table or the slot |
| `Handles.System.HandleFree` | main/kernel/handle/alloc.c:130-146 | clears exactly that slot and keeps counts balanced |
| `Handles.System.HandleAcquire` | main/kernel/handle/resolve.c:7-37 | checks the expected type, copies the entry and takes one reference in flight |
| `Handles.System.HandleTransfer` | main/kernel/handle/transfer.c:19-62 | succeeds iff the handle may go and there is room; then a new handle to the same object with the intersected rights and one more reference, otherwise nothing at all; goes outside the table iff the hint does |
| `Handles.System.HandleDuplicate` | main/kernel/sys/sys_handle.c:27-62 | an equal handle in the same process, iff the right to duplicate and room are there and the name can be read; goes outside the table iff the hint does |
| `Handles.System.Grant` | main/kernel/sys/sys_handle.c:65-111 | the other process gets exactly this handle with the intersected rights, iff capability, right and room are there and the name can be read |
| `Handles.System.TransferAll` | main/kernel/process/spawn.c:59-74 | each handle in turn arrives iff it may go and there is room, where and with which rights; counts stay balanced and rights attenuated |
| `Handles.System.TableCreate` | main/kernel/handle/table.c:9-26 | a new empty table changes no count and adds no right, or there is no memory |
| `Handles.System.TableDestroy` | main/kernel/handle/table.c:31-49 | closes every handle of the process and no other |
| `Handles.System.ObjectCreate` | main/kernel/ipc/endpoint.c:62-93 | a new object with one handle iff it can be entered, otherwise nothing at all |
| `Handles.System.PipeCreate` | main/kernel/ipc/pipe.c:145-176 | a new pipe with a handle for either end iff both can be entered one after the other, otherwise every count as before, whichever allocation fails |
| `Handles.PlacedAttenuates` | main/kernel/handle/transfer.c:30-54 | a handle made from another adds no right to its object and, without the transfer right, no holder |
| `Handles.System.Perform` | main/kernel/handle/transfer.c:19-62 | every handle operation does what it is for, keeps counts balanced and attenuates every object it did not create |
| `Handles.System.RunAll` | main/kernel/handle/transfer.c:30-54 | over any sequence of operations each does its part, counts stay balanced, and on objects not created on the way the union of rights never grows, nor, without a transferable handle, the set of holders |
| `VfsPath.ResolvePath` | user/servers/vfs/main.c:126-192 | the in-place tokenizer with its stack computes the resolution |
| `VfsPath.WriteOut` | user/servers/vfs/main.c:187-191 | writing into the bounded buffer loses nothing |
| `VfsPath.ResolvedIsNormal` | user/servers/vfs/main.c:151-191 | the result is always a normal form that fits the buffer: no empty, `.` or `..` component |
| `VfsPath.ResolvedIsIdempotent` | user/servers/vfs/main.c:126-192 | resolving a result again, from anywhere, gives it back |
| `VfsPath.ResolvedComposes` | user/servers/vfs/main.c:136-145 | resolving q from the resolution of p is resolving p/q whenever that text fits the buffer |
| `VfsPath.TokensOfJoin` | user/servers/vfs/main.c:151-191 | writing names out and splitting them again gives them back |
| `VfsPath.TokensOfPath` | user/servers/vfs/main.c:155-180 | the tokens of a/b are those of a, then those of b |
| `VfsPath.NameGoesDown` | user/servers/vfs/main.c:168-177 | one name more is one component more, up to 32 |
| `VfsPath.DotsGoUp` | user/servers/vfs/main.c:163-166 | `..` takes the last component away |
| `VfsPath.DotStays` | user/servers/vfs/main.c:161-162 | `.` changes nothing |
| `VfsPath.RootIsItsParent` | user/servers/vfs/main.c:163-166 | `..` of the root is the root |
| `VfsPath.UpUndoesDown` | user/servers/vfs/main.c:163-177 | p/c/.. is p iff p has fewer than 32 components |
| `VfsPath.WhereItStarts` | user/servers/vfs/main.c:136-145 | an absolute path is resolved by itself, a relative one behind the working directory, both cut at 255 characters |
| `VfsServer.Server.GetCwd` | user/servers/vfs/main.c:82-89 | the process's directory, or `/` |
| `VfsServer.Server.SetCwd` | user/servers/vfs/main.c:94-120 | moves that process and no other; each failure's reason |
| `VfsServer.Server.Resolve` | user/servers/vfs/main.c:126-192 | a normal form relative to the process's directory |
| `VfsServer.Server.DoMount` | user/servers/vfs/main.c:296-326 | writes exactly one slot, replacing an equal path or using a free one; paths stay distinct |
| `VfsServer.Server.Lookup` | user/servers/vfs/main.c:332-395 | the longest mount that is the path or a directory above it, with the path below it; not found iff there is none |
| `VfsServer.BestIsUnique` | user/servers/vfs/main.c:340-361 | at most one mount is the longest |
| `VfsServer.RebuiltIsPath` | user/servers/vfs/main.c:367-392 | for a normal path, mount and remainder rebuild the path |
| `VfsServer.Server.CollectMountChildren` | user/servers/vfs/main.c:194-260 | the names of the direct child mounts in slot order |
| `VfsServer.ListingIsRightIff` | user/servers/vfs/main.c:194-260 | the names listed are exactly those of the child mounts, iff every child name fits a directory entry; then each is listed once |
| `VfsServer.LongNamesAreCut` | user/servers/vfs/main.c:250-256 | for every name of 63 characters two mounts that extend it, in a server's table, are listed under the cut name, twice |
| `VfsServer.ChildNameIsPath` | user/servers/vfs/main.c:215-238 | a mount is a child under a name iff the name is one component and, put under the directory, is the mounted path |
| `VfsServer.ListingShowsMounts` | user/servers/vfs/main.c:194-260 | where names fit, a name is listed iff something is mounted at the directory's path with that one component more |
| `VfsServer.VisibleAre` | user/servers/vfs/main.c:507-578 | the entries shown are those no child mount covers, in the backend's order |
| `VfsServer.Server.ReadDir` | user/servers/vfs/main.c:507-578 | entry i of the child mounts followed by the backend entries no mount covers, or the end code |
| `RamfsTree.PathIsUnique` | user/init/ramfs.c:68-118 | no node is found under two paths |
| `RamfsTree.CreatedTree` | user/init/ramfs.c:361-393 | creating keeps one tree with exactly the nodes in use reachable |
| `RamfsTree.CreatedLook` | user/init/ramfs.c:361-393 | only the new path is found differently |
| `RamfsTree.DeletedTree` | user/init/ramfs.c:395-422 | deleting keeps one tree |
| `RamfsTree.DeletedLook` | user/init/ramfs.c:395-422 | only the deleted path is found differently |
| `RamfsTree.RenamedTree` | user/init/ramfs.c:424-469 | renaming to a place outside the node keeps one tree |
| `RamfsTree.RenamedLook` | user/init/ramfs.c:424-469 | the moved subtree is found under the new path and not under the old one, everything else as before |
| `RamfsTree.RenameKeepsTree` | user/init/ramfs.c:424-469 | a rename keeps the tree iff the destination is not inside the moved node |
| `RamfsTree.RenameCanBreakTheTree` | user/init/ramfs.c:449-466 | moving /a to /a/b in a tree of one directory breaks it |
| `RamfsTree.CutOff` | user/init/ramfs.c:449-466 | otherwise the nodes from the moved one down to its new parent cannot be reached |
| `Ramfs.FileSystem.constructor` | user/init/ramfs.c:500-512 | a tree with the root only |
| `Ramfs.FileSystem.FindChild` | user/init/ramfs.c:97-106 | the walk along the siblings finds the child of that name |
| `Ramfs.FileSystem.LookupPath` | user/init/ramfs.c:68-118 | the node the path's names lead to from the root |
| `Ramfs.FileSystem.LookupParent` | user/init/ramfs.c:121-153 | the directory and last name of a path; the name is empty iff the path ends in a slash |
| `Ramfs.FileSystem.AllocNode` | user/init/ramfs.c:16-25 | a slot not in use, or all are in use |
| `Ramfs.FileSystem.Attach` | user/init/ramfs.c:382-390 | links the new node first in its directory and keeps all lists |
| `Ramfs.FileSystem.Unlink` | user/init/ramfs.c:409-417 | takes the node out of its parent's list and keeps all lists |
| `Ramfs.FileSystem.Mkdir` | user/init/ramfs.c:361-393 | keeps the tree; the result is EEXIST iff the path is there, and otherwise decided by directory, name length and free nodes; on success only the new path changes, on failure nothing |
| `Ramfs.FileSystem.Open` | user/init/ramfs.c:156-209 | keeps the tree; what is opened or created is a file, and only its path can change; each result iff its condition |
| `Ramfs.FileSystem.Delete` | user/init/ramfs.c:395-422 | keeps the tree; on success only the deleted path changes; each failure iff its condition |
| `Ramfs.FileSystem.Rename` | user/init/ramfs.c:424-469 | succeeds exactly when the node and the new directory exist and the new name is free and fits, each failure changing nothing; keeps the tree iff it did not move a node into itself; lookups are then those of the moved subtree, everything else as before |

## Left out

- The tick of the sequential mode (`svc_tick`): init stops when the graph cannot be built, so it is never reached.
- ServiceManager.SvcManager.HandleReadyNotification: name and pid are arguments; decoding the message is left out.
- Starting processes, probing and mounting file systems: a process id and a mount result are inputs of the tick.
- More than one concurrent pipe writer: a writer fixes its batch before it drops the lock, so the stream law is for one reader and one writer.
- Waking by signals, polling (`ipc_wait_any`), and replies to threads that do not await one.
- Kmsg.Kmsg.LogRaw: assumes fewer than 2^32 log calls and an initialised buffer.
- More than one CPU: inter-processor interrupts, migration and load balancing.
- Scheduler.Scheduler.Schedule: the cleanup of zombies that follows a switch is the separate `Scheduler.Scheduler.CleanupZombies`.
- SchedulerWait.WaitWithTimeout: what happens meanwhile is timer ticks and wakeups on channels; wakeups of a single thread, exits and new threads are left out.
- SchedulerWait.Sleep: the same.
- Scheduler.Scheduler.Exit: ending the process with its last thread is left out.
- Context switching, stacks and their canaries, and thread reference counts.
- PageAllocator.Allocator.constructor: starts from a bitmap whose free count is right; reading the memory map and packing bits into words are not modelled.
- Kmalloc.Heap.Krealloc: when the copy leaves the new block it says so and stops before the copy; what memory then holds is not modelled.
- `kzalloc`, `kstrdup` and handle names: they would only add easy members.
- ElfLoader.Loader.LoadElf: takes frames as `ElfLoader.DrawFrames` draws them; the kernel half of the page directory is not modelled, so segments are taken below the kernel; page flags and the mmap area are left out.
- ElfLoader.Loader.MemcpyPhysToPhys: nothing is said about the bytes copied when the destination starts inside the source, which a file and a fresh frame never do.
- Handles.System.HandleAllocAt: when the call goes outside the table it says so, and nothing is promised about memory after that. A heap block is taken to be at most the 1 GiB the kernel maps.
- Handles.System.HandleDuplicate: the same when the hint lies outside the table.
- Handles.System.HandleTransfer: nothing is promised when the hint lies outside the table; each operation is one step; the moment between entering the new handle and narrowing its rights is not visible to others.
- References that endpoint queues take on their endpoint: the conservation law is about handle operations.
- Endpoint.StepKeeps: queues are sequences, so link-level aliasing of `wait_next` is not captured; message buffers and handles inside messages are one value, and their transfer is `Handles.System.TransferAll`.
- Directory handles of the VFS server, forwarding of requests, and failing calls to a backend.
- VfsServer.Server.ReadDir: the backend's listing does not change during the call; looking up the directory handle and a failing backend call are left out.
- Ramfs.FileSystem.Rename: what lookups give after a node was moved into itself is stated by `RamfsTree.CutOff` only.
- Ramfs.FileSystem.Open: truncation and the flags kept with a file handle are left out.
- Contents of files, open handles on deleted nodes, and directory reading of the memory file system.
- Drivers, console, terminals, FAT readers, archive extraction, shell and installer.
