# Verified model of the KubeVirt metrics exporter

This project models the parts of the KubeVirt metrics exporter whose behaviour is hard to see from any one
function, and proves what they promise on every input, every run and every interleaving.

* **QMP client cancellation** (`QmpClient`). `call`, `Close` and the `context.AfterFunc` callback as an
  interleaving state machine with any number of requests, closers and cancellations. An invariant kept by every
  step gives: one request at a time, one close of the transport, no callback of an old request that could close the
  client under a new one, `Close` never blocked by a request, every request able to return. How a request ends is
  decided, both ways, by the order of a few events.
* **The two pollers** (`QmpCollector`, `QgaCollector`, with `QgaHistory` and `QgaClient`). Classes that are mutated
  as the Go code does it, with ghost histories: no connection is ever leaked, the retry count and the passive mode
  are exactly what the history of the connection says, passive probes neither starve nor flood, what is published
  and counted does not depend on the order in which goroutines finish, and one scrape fits its time budget. Which
  monitor commands a scrape sends, and which queues and disks it reports, is stated through the listed devices and
  the replies; what a poll does to each VM, through its scrape and its fields.
* **Latency histograms from the kernel to Prometheus** (`Bits`, `BpfLatency`, `Histogram`, `EbpfCollector`). The
  branch-free logarithm is the exact floor of log2; every stored start is accounted for, and every recorded latency
  is the elapsed time of one start and the one completion that consumed it; exported buckets and sums are bounded,
  both ways, by those elapsed times in nanoseconds.
* **Loading eBPF programs** (`Loader`). All or nothing for every pattern of failures, a return probe wherever there
  is an entry probe, one publication per subsystem over all retries, nothing left open unpublished.
* **THP readiness** (`FreeBytes`, `NumaRows`, `BuddyInfo`, `PagetypeInfo`, `CgroupCollector`, `ProcFiles`). 64-bit
  sums against exact ones, the section-tracking parse, the choice of zone, and the join of two files through Go maps:
  the files determine the emitted rows and their order whatever the order of the map walks. And a round trip: from the
  free blocks of a machine through the two files, as Linux prints them, to what is reported for each node.
* **Little's Law** (`QgaTypes`, `QgaHistory`, `QgaCollector`). Over any run of polls the published rates, and what
  they miss, add up to the growth of the guest's counter, plus 2^64 for each wrap of it that a rate was computed over;
  and what each figure means in seconds.

CRI lookups, dialling, RPC replies, file contents, clock readings, attach results and LRU evictions are inputs.
Goroutine order and map iteration order are inputs or left to chance (`:|`). `float64` is `real`, with a positive number
whose square is 2 for `math.Sqrt2`; `uint64` wrap-around is explicit where the source relies on it or where a
result could depend on it. A BPF handler is one atomic step. `dafny verify dfyconfig.toml` checks everything.

Seven promises hold only under a condition, which is stated and proved to be exact.

* The true total of latencies stays within `2 * sqrt(2)` of the exported sum. From 2^26 microseconds on the last slot
  no longer says how long a latency was: the factor holds for all latencies up to a bound if and only if the bound is
  at most 2^26 (`Histogram.FactorBoundExact`), and a single latency of 2^26 + 1 breaks it (`Histogram.FactorLost`).
  A total with a longer latency in it may still keep the factor if the other latencies make up for it.
* A latency of the kprobe program is that of one call. It is exactly if no call on the thread in between has one end
  probed and the other not (`BpfLatency.LatencyOfOneCall`, counterexample `BpfLatency.HalfProbedMixes`). The loader
  ends in no such state (`Loader.ReturnProbesMatch`), but passes through some while it attaches.
* IOPS times elapsed time is the number of operations. The guest counts them in 32 bits and the difference is taken in
  64: it holds exactly if the counter did not wrap in the interval (`QgaTypes.OpsExactly`, counterexample
  `QgaTypes.WrappedCounter`).
* Published rates account for all operations. While the counter does not go back, exactly if every success that finds
  the disk busy publishes it (`QgaHistory.CompleteExactly`), which it does exactly if the success before lists the disk
  too, the VM was not passive in between and the guest's clock moved on (`QgaHistory.ShownExactly`).
  `QgaHistory.OperationsLost` and `QgaHistory.UnlistedLost` are histories that lose some, and
  `QgaHistory.PublishedOpsTelescope` says how many over every history.
* Movable memory of order 9 and above is part of movable memory of all orders. Two files read one after the other
  can break it; it holds exactly if the large blocks are excluded altogether or the small ones are not
  over-excluded (`FreeBytes.MovableOrder`, counterexample `FreeBytes.MovableInverted`).
* Movable memory is what is free and neither unmovable nor isolated. pkg/cgroup/pagetypeinfo.go:18-21 says that the cap
  on saturated counts keeps from overstating stock; what it understates is what is taken away. Reported movable memory
  is exact if and only if no unmovable or isolated count of the zone is above 100000, and otherwise too high
  (`ProcFiles.ReportedTruth`, counterexample `ProcFiles.CapOverstates`).
* A failed load leaves `Programs` as it was. True of both NFS loaders; `loadBlock` publishes its collection before it
  attaches, so that a failure leaves what is published unchanged exactly if the collection did not load
  (`Loader.Programs.LoadBlock`, counterexample `Loader.BlockLeavesTraces`).

## Model

| member | source | states |
|---|---|---|
| QmpClient.InvPreserved | pkg/qmp/client.go:100-138 | every step of every request, callback and closer keeps the protocol invariant |
| QmpClient.ReachableInv | pkg/qmp/client.go:75-138 | the invariant holds after every interleaving |
| QmpClient.MutualExclusion | pkg/qmp/client.go:116-138 | at most one request function runs at a time; the transport is closed at most once, and only a closed client has it closed |
| QmpClient.NoStaleCallback | pkg/qmp/client.go:127-137 | no callback of a request that does not hold the mutex is armed or running |
| QmpClient.OnlyCurrentRequestCloses | pkg/qmp/client.go:126-130 | in every reachable state the step that closes the client is a direct Close or comes from the callback of the request holding the mutex |
| QmpClient.ReturnedMeaning | pkg/qmp/client.go:131-137 | a request returns by cancellation only after Close finished; any other return has a callback that never ran |
| QmpClient.Monotone | pkg/qmp/client.go:100-111 | over every continuation `closed` never goes back to false and a returned request keeps its outcome |
| QmpClient.FinishedRequestNeverCloses | pkg/qmp/client.go:127-137 | after fn's own result was returned, nothing later, cancelling its context included, makes its callback run |
| QmpClient.NoRequestAfterClose | pkg/qmp/client.go:119-124 | once closed, no request that had not passed the check ever runs fn |
| QmpClient.NoRequestAfterCancel | pkg/qmp/client.go:119-121 | a request whose context ended before its check never runs fn, over every continuation |
| QmpClient.CtxErrSeen | pkg/qmp/client.go:119-121 | ctx.Err() without fn is only reported to a request whose context has ended |
| QmpClient.OutcomeExactly | pkg/qmp/client.go:116-138 | over every run, how a request ended follows from the order of events, both ways: ctx.Err() if and only if its context was cancelled before its check; closed if and only if it was not and Close had set the flag before that check; cancelled if and only if its callback started; else with the result fn gave |
| QmpClient.LiveRequestRuns | pkg/qmp/client.go:116-138 | a request whose context is never cancelled, on a client not closed before its check, returns what fn returns |
| QmpClient.OpenClientServes | pkg/qmp/client.go:116-138 | on every open client at rest, a request with a live context has a schedule on which it returns exactly what fn returns |
| QmpClient.CancelInterrupts | pkg/qmp/client.go:127-130 | while fn runs under an ended context, the callback and Close alone can close the transport, once, without waiting for fn |
| QmpClient.ClosedErrSeen | pkg/qmp/client.go:122-124 | ErrClientClosed is only reported by a closed client |
| QmpClient.CloseNeedsNoMutex | pkg/qmp/client.go:98-106 | from every reachable state a Close in progress can finish by steps of Close alone, leaving mutex and requests as they are |
| QmpClient.EveryRequestCanReturn | pkg/qmp/client.go:116-138 | progress: from every reachable state each request has a schedule on which it returns, once fn does |
| QmpClient.ClosedIffCancelled | pkg/qmp/client.go:116-138 | at rest without direct Close, the client is closed if and only if some request returned by cancellation |
| QmpClient.SequentialCall | pkg/qmp/client.go:116-138 | what one request does to a client with one user: closes it exactly when it ends by cancellation, runs fn only when open and only if its context had not ended, ends with ctx.Err() if it had, and with the result of fn if the client is open and the context stays live |
| QmpClient.NewClientIsOpen | pkg/qmp/client.go:75-96 | a client handed out by newClient without error is open |
| QmpClient.FailedClientIsClosed | pkg/qmp/client.go:91-95 | on its error path newClient closes what it dialled: after that Close returned the client is closed, its transport closed once, and no later request runs fn, over every continuation |
| QmpCollector.VmConnection.Call | pkg/qmp/client.go:116-138 | one monitor command is recorded and obeys the contract proved of the state machine for a single user |
| QmpCollector.VmConnection.ArmDevices | pkg/qmp/collector.go:516-539 | armed set, log and commands sent after the loop are exactly those of the arming pass over the listed disks; it ends early if and only if one of its commands is cancelled |
| QmpCollector.EveryDiskTried | pkg/qmp/collector.go:516-539 | in every scrape, each listed disk was armed before, shows a histogram, or is sent the command that arms it |
| QmpCollector.VmConnection.QueueCount | pkg/qmp/collector.go:588-604 | the count is the cached one, or the answer to exactly one command, cached if positive; the client is closed exactly if that command is cancelled |
| QmpCollector.VmConnection.QueryQueues | pkg/qmp/collector.go:606-625 | unless a command is cancelled, exactly the queues whose query succeeded, in order, with the values answered; closed exactly if one is |
| QmpCollector.VmConnection.QueryBus | pkg/qmp/collector.go:579-675 | counts, log, command number and queues are exactly those of the pass over the listed devices, as the cache and the replies say; closed exactly if one of its commands is cancelled |
| QmpCollector.QueuesReported | pkg/qmp/collector.go:579-675 | a result of a scrape contains a queue if and only if some listed device, on either bus, has it under the count in use and the monitor answered for it, with those values |
| QmpCollector.EveryDeviceAsked | pkg/qmp/collector.go:579-675 | in every scrape, each listed device of either bus has its count cached from before or is asked for it, and each of its queues below that count is asked for |
| QmpCollector.ScrapeSends | pkg/qmp/collector.go:501-687 | every command of a scrape: the block statistics first, then arming for disks that show no histogram and are not known to have one, then the device list, then nothing but counts and queues of listed devices within their counts, virtio-blk before virtio-scsi |
| QmpCollector.QueuesInOrder | pkg/qmp/collector.go:606-674 | the queues of a result are the answers to the queue commands, in the order they were sent |
| QmpCollector.ScrapeFails | pkg/qmp/collector.go:501-577 | a scrape fails if and only if its first command is not answered or some command it sends is cancelled |
| QmpCollector.ScrapeLogs | pkg/qmp/collector.go:516-653 | the log of a connection grows in a scrape by exactly what its commands and the first reply say |
| QmpCollector.ReportDevices | pkg/qmp/collector.go:552-567 | the disks that show a histogram, and no others, in the order they are listed |
| QmpCollector.ReportedParts | pkg/qmp/collector.go:552-567 | what is reported of a list is what is reported of its parts, a device being there if and only if it is a disk that shows a histogram |
| QmpCollector.VmConnection.Scrape | pkg/qmp/collector.go:501-687 | the result is exactly what the log of the connection and the replies determine: the disks that show a histogram and the queues of both passes; none if and only if listing fails, some command is cancelled or the client was closed |
| QmpCollector.ArmedMeaning | pkg/qmp/collector.go:522-538 | a disk is in the armed set if and only if its histogram was seen or successfully armed |
| QmpCollector.CountsMeaning | pkg/qmp/collector.go:588-604 | a path has a cached count if and only if it gave a positive answer, and the count is that answer |
| QmpCollector.NeverAskedTwice | pkg/qmp/collector.go:516-539 | over all scrapes of a connection, arming is sent only for a disk showing no histogram and not known to have one, and a known queue count is never asked for again |
| QmpCollector.Collector.RemoveDeparted | pkg/qmp/collector.go:337-344 | exactly the active connections stay, untouched; the others are closed |
| QmpCollector.Collector.DialNew | pkg/qmp/collector.go:345-375 | the map grows by exactly the reachable containers, each with an empty log; existing connections stay, duplicates are closed |
| QmpCollector.Collector.ScrapeOne | pkg/qmp/collector.go:395-413 | the outcome follows from the log and replies of this connection alone; an error closes and removes it, a result leaves it open with its log grown |
| QmpCollector.Collector.ScrapeAll | pkg/qmp/collector.go:386-416 | in any order: the same results, failures and logs |
| QmpCollector.Collector.Poll | pkg/qmp/collector.go:332-425 | logs, results and error count after a poll are functions of the logs before, the targets and the replies; every connection kept is open, everything else ever dialled is closed |
| QmpCollector.PollParts | pkg/qmp/collector.go:332-425 | the containers that stay with a result and those that fail are together exactly the active connections and the newly reached ones, disjointly |
| QmpCollector.PollsEach | pkg/qmp/collector.go:332-425 | a poll scrapes a container if and only if it is a target that has a connection or was found and can be dialled; it is a failure if that scrape fails, else its result is shown |
| QmpCollector.LogsGrowOver | pkg/qmp/collector.go:386-425 | over any run, a connection that stays keeps all of its log, so that what holds of the log holds over all its scrapes |
| QmpCollector.Collector.CloseAll | pkg/qmp/collector.go:167-174 | every connection ever dialled is closed |
| QmpCollector.Collector.Run | pkg/qmp/collector.go:152-165 | the polls lead from the state before to what is shown in the end, and then nothing ever dialled is open |
| QgaTypes.MetricsInSeconds | pkg/qga/types.go:148-167 | a sample with a later clock covers the 100 ns ticks that passed at ten million a second; IOPS and latency are those of the counter differences modulo 2^64 over that time, both zero without operations; any other sample is all zeros |
| QgaTypes.LittlesLaw | pkg/qga/types.go:148-167 | whenever the clock has moved on and operations were counted, IOPS times latency is the wrapped growth of the queue-length counter averaged over the ticks of the interval |
| QgaTypes.OpsServed | pkg/qga/types.go:148-167 | a sample is reported if and only if the clock has moved on, and then IOPS times elapsed time is exactly the wrapped difference of the operation counter |
| QgaTypes.OpsExactly | pkg/qga/types.go:136-167 | with a 32-bit guest counter the true number of operations is reported if and only if it did not wrap in the interval |
| QgaTypes.WrappedCounter | pkg/qga/types.go:148-167 | two operations that wrap the 32-bit counter are reported as 2^64 - 2^32 + 2 |
| QgaHistory.ReplayMeaning | pkg/qga/collector.go:408-457 | retry count, passive mode and stored snapshot as functions of the history since the last success, both directions |
| QgaHistory.ShownExactly | pkg/qga/collector.go:506-541 | a success publishes a disk if and only if the success before it lists it too, the VM was not passive in between and the clock of the guest has moved on |
| QgaHistory.PublishedOpsTelescope | pkg/qga/collector.go:490-545 | over every history, whatever it lists: published IOPS times elapsed time plus the operations missed is exactly the growth of the counter from the first success that lists the disk to the last, plus 2^64 for each time it went back between two compared samples |
| QgaHistory.CompleteExactly | pkg/qga/collector.go:408-545 | over every history the published rates account for exactly the growth if and only if what was missed makes up for the wraps; while the counter does not go back, if and only if every success that finds the disk busy publishes it |
| QgaHistory.WrapUnaccounted | pkg/qga/collector.go:506-541 | with a 32-bit counter and fewer than 2^32 scrapes one wrap between compared samples is never made up for |
| QgaHistory.OperationsLost | pkg/qga/collector.go:408-424 | a history that loses operations: a blacklist error between two successes |
| QgaHistory.UnlistedLost | pkg/qga/collector.go:512-541 | a history that loses operations without the VM ever being passive: a success in between does not list the disk |
| QgaCollector.SnapshotMeaning | pkg/qga/collector.go:490-498 | a disk is in the snapshot if and only if it has a row, with the counters of its last row |
| QgaCollector.PassiveInterval | pkg/qga/collector.go:94-101 | sixty poll intervals, or an hour without one |
| QgaClient.FirstExitIsFirst | pkg/qga/client.go:180-203 | waiting yields a result if and only if some status is the first to have exited, with its output whole, and then that one |
| QgaClient.GuestExecWait | pkg/qga/client.go:157-204 | at most six polls and six sleeps; the result is the first exit or the error of the ended context, and on a timely guest never the latter |
| QgaClient.CountersExactly | pkg/qga/client.go:321-350 | the replies make a scrape succeed if and only if the process started, one of six status calls is the first to find it exited, cleanly and with whole output that parses; they make it a blacklist error if and only if the start or a status call while it ran was refused so; everything else is an ordinary error |
| QgaClient.ScrapeBudget | pkg/qga/collector.go:200-207 | seven agent timeouts, or eight with the disk map, six waits and two seconds |
| QgaClient.ScrapeCalls | pkg/qga/client.go:321-350 | the scrape ends as the replies decide, or by its own deadline, or by cancellation of the parent and then only if that came within the budget; on a timely guest without such a cancellation exec, polls, sleeps, guest-get-disks and the work after it end before scrapeBudget, as the replies alone decide |
| QgaCollector.DiffSnapshots | pkg/qga/collector.go:512-539 | in any order: one entry for each disk in both snapshots on which time advanced |
| QgaCollector.ScrapeVM | pkg/qga/collector.go:459-557 | a success resets retry count and passive mode, stores its snapshot, appends itself to the history and publishes the difference to the last one; a failure changes nothing but the client |
| QgaCollector.Collector.RemoveDeparted | pkg/qga/collector.go:288-295 | exactly the active connections stay, untouched; the others are closed |
| QgaCollector.Collector.DialNew | pkg/qga/collector.go:296-320 | what the poll works on grows by exactly the containers that dial, each with an empty history; nothing else changes |
| QgaCollector.Collector.HandleScrapeError | pkg/qga/collector.go:430-457 | a blacklist error leaves the VM mapped and passive with its retry count; a closed client, or an error saying so, takes it out of the map; any other error raises the retry count by one and makes the VM passive if and only if it was or the count has reached the limit; the schedule is set only when a VM turns passive and none was set |
| QgaCollector.Collector.ScrapeOne | pkg/qga/collector.go:369-387 | what one goroutine does to map, history and results, from the VM's own reply and history |
| QgaCollector.Collector.Dispatch | pkg/qga/collector.go:346-367 | every VM of the snapshot is dead, skipped or scheduled, exactly as its state and the schedule say; dead ones are dropped |
| QgaCollector.Collector.Complete | pkg/qga/collector.go:368-390 | all scheduled scrapes in any order: the same outcomes, histories and map |
| QgaCollector.Tally | pkg/qga/collector.go:376-386 | in any order: each outcome is one failure or one success, with a result exactly for successes that have disks |
| QgaCollector.ResultNeedsBaseline | pkg/qga/collector.go:506-548 | a result is published only after an earlier success on the same connection with no passive fallback since, and is the difference to it |
| QgaCollector.Collector.ScrapeAll | pkg/qga/collector.go:322-399 | the whole scraping half of a poll: groups, errors, results and schedule |
| QgaCollector.Collector.Poll | pkg/qga/collector.go:283-399 | it works on exactly the active connections and the newly dialled ones; four disjoint groups; errors grow by dead plus failed; a due poll scrapes every live passive VM; each history grows by its own event; the schedule moves exactly when passive VMs were probed; what it leaves dead had its client closed in this poll |
| QgaCollector.WorksOn | pkg/qga/collector.go:283-320 | a poll works on a container if and only if it is a target that has a connection or can be dialled; a new connection starts afresh |
| QgaCollector.PollLeaves | pkg/qga/collector.go:322-457 | what a poll leaves of each VM it works on, by its scrape and its fields before: dropped if its client was closed; untouched if passive and no probe was due; else scraped, and reset by a success, passive by a blacklist error, gone with a dead client, one retry nearer to passive by any other error; which VMs count as errors |
| QgaCollector.PollShows | pkg/qga/collector.go:490-548 | a poll shows a disk if and only if its VM was scraped with success, the stored snapshot and the new one list it and the clock of the guest moved on; and then the figures of those two samples |
| QgaCollector.Collector.BoundaryMeaning | pkg/qga/collector.go:408-457 | at every poll boundary: retry count, passive and snapshot from the history; passive implies no snapshot, no disk map and a set schedule |
| QgaCollector.Collector.CloseAll | pkg/qga/collector.go:129-136 | every connection ever dialled is closed |
| QgaCollector.Collector.Run | pkg/qga/collector.go:114-127 | each poll starts from what the one before left, the first from what the collector held, and results, errors and probes in the end are those of the last; nothing dialled stays open |
| QgaCollector.RunAccounts | pkg/qga/collector.go:283-399 | over every run, what the polls show about a disk from the first poll of a connection on, plus what they miss, is the growth of the counter of the guest, plus 2^64 for each wrap |
| QgaCollector.RunSchedules | pkg/qga/collector.go:331-399 | what every poll of a run does to the passive schedule |
| QgaCollector.ProbesSpaced | pkg/qga/collector.go:331-344 | of two polls of a run that probe passive VMs the later starts at least the passive interval after the earlier ended |
| QgaCollector.BoundedWait | pkg/qga/collector.go:331-399 | over every run, a passive VM that stays in the map is scraped or found dead by the first poll starting at least the passive interval after it was found passive, at the latest |
| QgaCollector.ProbedExactly | pkg/qga/collector.go:346-367 | a live passive VM is scraped if and only if the schedule is due |
| QgaCollector.FirstProbe | pkg/qga/collector.go:408-424 | when a VM just found passive is probed first: by the schedule it found, which is not reset, so at once if that is old; only without one does it wait the interval |
| QgaCollector.DeadWasDying | pkg/qga/collector.go:346-358 | over every run, a VM dropped as dead had its client closed during its scrape in the poll before |
| Bits.Log2 | bpf/headers/bits.bpf.h:5-16 | the branch-free shifts compute the floor of log2 of every 32-bit word |
| Bits.Log2l | bpf/headers/bits.bpf.h:18-26 | the same for every 64-bit word |
| Bits.FloorLog2IsFloor | bpf/headers/bits.bpf.h:18-26 | the recursive reference is the exponent of the largest power of two not above the word, and nothing else is |
| BpfLatency.RecordedMicros | bpf/block_latency.c:84-86 | nanoseconds rounded down to whole microseconds, and one microsecond below that |
| BpfLatency.ClassifyOp | bpf/block_latency.c:34-43 | R, W, D and F are operations 0 to 3 and nothing else is one |
| BpfLatency.LatencyMaps.Complete | bpf/block_latency.c:78-105 | consuming a start is one Finish step, slot by log2l and clamping |
| BpfLatency.BlockRqIssue | bpf/block_latency.c:45-60 | stores a start exactly for classified operations |
| BpfLatency.BlockRqComplete | bpf/block_latency.c:62-107 | nothing without a start, else one Finish step under the completion's device and operation |
| BpfLatency.NfsDone | bpf/nfs_latency.c:46-132 | nothing without a start, else one Finish step |
| BpfLatency.KretprobeNfsVfs | bpf/nfs_kprobe_latency.c:83-124 | a Finish step under the device and operation of the thread's start |
| BpfLatency.FinishTouchesOneSlot | bpf/block_latency.c:78-106 | a completion counts if and only if it has a start its clock is not behind, a classified operation and an entry that exists or can be created; then it adds one to exactly one slot under the key it was given or its start carries, else to none |
| BpfLatency.Conservation | bpf/block_latency.c:45-107 | over every run with evictions: stored = overwritten + evicted + pending + consumed, consumed = counted + dropped by reason, every live entry holds the slot counts of its latencies, slot totals never exceed starts |
| BpfLatency.PairsUnique | bpf/block_latency.c:54-82 | over every run a start is consumed by at most one completion and a completion consumes at most one start |
| BpfLatency.LatenciesAreElapsed | bpf/block_latency.c:78-105 | each counted delay is the elapsed time, in nanoseconds, from the last start stored under its key, untouched in between, to the completion that consumed it |
| BpfLatency.MeasuredExactly | bpf/block_latency.c:78-105 | a pair of start and completion is among the recorded ones if and only if the completion counts under the key and the entry was not evicted since |
| BpfLatency.ElapsedIsDifference | bpf/block_latency.c:78-86 | each counted pair whose clock readings are within 2^63 ns is recorded with their plain difference, which is not negative: as one microsecond below that, and else rounded down |
| BpfLatency.LatencyOfOneCall | bpf/nfs_kprobe_latency.c:83-124 | however calls nest on a thread, probed or not, the shared return probe measures from the entry of a call to its own return if and only if no call in between has one end probed and the other not |
| BpfLatency.HalfProbedMixes | bpf/nfs_kprobe_latency.c:83-124 | with the return of an inner call unprobed, as while return probes are being attached, the return of the outer call consumes the start of the inner one |
| BpfLatency.OuterCallUnmeasured | bpf/nfs_kprobe_latency.c:36-45 | without half-probed calls, a call within which another traced call was entered on the same thread is never measured |
| BpfLatency.ExportedBucket | bpf/block_latency.c:84-105 | after every run, the bucket of a live entry at b seconds covers every pair with up to b elapsed, once b is a microsecond; below 33.554432 seconds none with 2b or more, and from there on all |
| Histogram.SlotsToConstHistogram | pkg/ebpf/histogram.go:18-52 | count, weighted sum and cumulative bucket of every boundary |
| Histogram.MidpointIsGeometric | pkg/ebpf/histogram.go:27-32 | slot 0 stands for half a microsecond, every other slot for the geometric mean of 2^(i-1) and 2^i |
| Histogram.SumIsEstimate | pkg/ebpf/histogram.go:23-34 | the exported sum, in seconds, is that of the representatives of all latencies counted |
| Histogram.BucketBounds | pkg/ebpf/histogram.go:37-49 | a bucket counts at least the latencies up to its boundary; below 2^25 microseconds at most those under twice it, and from there on all of them |
| Histogram.BucketExact | pkg/ebpf/histogram.go:37-49 | a bucket is exactly the number of latencies below the least power of two above its boundary, or all of them from the last slot on |
| Histogram.BucketsCumulative | pkg/ebpf/histogram.go:36-49 | buckets grow with their boundary and never exceed the count |
| Histogram.SumNeverAbove | pkg/ebpf/histogram.go:27-33 | the exported sum never exceeds the true total |
| Histogram.SumWithinFactor | pkg/ebpf/histogram.go:27-33 | the true total of any latencies up to 2^26 microseconds is within 2 * sqrt(2) of the exported sum |
| Histogram.FactorBoundExact | pkg/ebpf/histogram.go:27-33 | 2^26 microseconds is the weakest such bound: the factor holds for all latencies up to t if and only if t is at most 2^26 |
| Histogram.FactorLost | pkg/ebpf/histogram.go:27-33 | a single latency of 2^26 + 1 microseconds breaks the factor |
| EbpfCollector.Export | pkg/ebpf/collector.go:142-149 | nothing for an empty histogram, else buckets and sum bounded both ways by the elapsed nanoseconds behind it and by the microseconds recorded of them |
| EbpfCollector.CollectHists | pkg/ebpf/collector.go:137-184 | one honest sample, in order, for each delivered entry that has events and a known operation, none else; the iterator may repeat entries, leave some out or end with an error |
| EbpfCollector.WalkCovers | pkg/ebpf/collector.go:137-184 | on a map that does not change meanwhile: one honest sample for each non-empty entry of a known operation, none else, in any order of the walk |
| EbpfCollector.CollectRun | pkg/ebpf/collector.go:137-184 | while the programs go on running between any two reads, each sample is honest about the elapsed times, in nanoseconds, its entry had measured when it was read |
| Loader.RollBack | pkg/ebpf/loader.go:183-189 | closing what a partial load acquired leaves open exactly what was open before |
| Loader.ServedOnce | pkg/ebpf/loader.go:178-196 | a loaded collection has each of its points attached exactly once and no other |
| Loader.ReturnProbesMatch | pkg/ebpf/loader.go:231-260 | a function has a return probe exactly if it has an entry probe, one of each |
| Loader.TargetsLoadMeaning | pkg/ebpf/loader.go:231-260 | the two loops succeed exactly if each function gets both probes or is optional and gets none |
| Loader.WhatLoads | pkg/ebpf/loader.go:133-227 | what each subsystem needs of the kernel: both block tracepoints, all four NFS tracepoints, or both probes of four functions and of nfs4_file_open if its entry probe attaches |
| Loader.Entries | pkg/ebpf/loader.go:122-124 | a positive map size truncated to 32 bits, none otherwise |
| Loader.Programs.LoadNfs | pkg/ebpf/loader.go:152-198 | succeeds exactly if everything attaches; publishes all of it or leaves Programs and the kernel as they were |
| Loader.Programs.LoadNfsKprobe | pkg/ebpf/loader.go:200-266 | the same all-or-nothing for entry and return probes |
| Loader.Programs.LoadBlock | pkg/ebpf/loader.go:116-150 | succeeds exactly if both tracepoints attach; a failure leaves nothing open, and leaves collection, histograms and links published as they were if and only if the collection did not load |
| Loader.BlockLeavesTraces | pkg/ebpf/loader.go:130-147 | an environment in which a failed load leaves a closed collection and a closed link published |
| Loader.Programs.RetryTick | pkg/ebpf/loader.go:90-106 | a tick loads what is waiting and loadable and leaves what is active alone; active exactly if published, once, and never also waiting |
| Loader.Programs.RetryFailed | pkg/ebpf/loader.go:78-114 | over any number of ticks a subsystem stops waiting if and only if some tick could load it; what was published stays |
| Loader.Programs.Close | pkg/ebpf/loader.go:268-281 | from a valid state nothing stays open |
| Loader.LoadAndAttach | pkg/ebpf/loader.go:37-76 | flags of every subsystem; the error occurs exactly when block alone was asked for and failed, and then nothing is open |
| FreeBytes.SumCounts | pkg/cgroup/buddyinfo.go:53-66 | fails exactly on an unreadable count; both figures are the exact sums modulo 2^64 |
| FreeBytes.GeNineWithin | pkg/cgroup/buddyinfo.go:59-63 | without overflow, order >= 9 is part of all orders |
| FreeBytes.Subtract | pkg/cgroup/pagetypeinfo.go:262-268 | the result plus the lesser of excluded and buddy is buddy |
| FreeBytes.MovableFits | pkg/cgroup/collector.go:334-335 | if no order has more excluded blocks than blocks, movable is the exact difference and order >= 9 <= all orders <= buddy |
| FreeBytes.MovableOrder | pkg/cgroup/collector.go:334-335 | without overflow, movable order >= 9 <= movable all orders if and only if large blocks are all excluded or small ones not over-excluded |
| FreeBytes.MovableInverted | pkg/cgroup/collector.go:334-335 | an input on which the order is broken |
| NumaRows.ListsUnique | pkg/cgroup/buddyinfo.go:128-130 | a map has one sorted listing |
| NumaRows.SortRows | pkg/cgroup/buddyinfo.go:128-130 | sorted by Go's string order, with the same rows |
| NumaRows.LexMeaning | pkg/cgroup/buddyinfo.go:128-130 | one node comes before another if and only if it is a proper prefix or smaller where they first differ |
| NumaRows.Listing | pkg/cgroup/pagetypeinfo.go:178-184 | walking a map in any order and sorting gives its listing |
| BuddyInfo.ReadRows | pkg/cgroup/buddyinfo.go:77-107 | fails exactly on an unreadable row; the maps hold the last row of every zone |
| BuddyInfo.ThpRows | pkg/cgroup/buddyinfo.go:115-130 | in any order: an error exactly if some node has neither zone, else one row per node from its THP zone |
| BuddyInfo.ReadBuddySnapshot | pkg/cgroup/buddyinfo.go:70-136 | succeeds exactly on an acceptable file and yields its snapshot |
| BuddyInfo.SnapshotUnique | pkg/cgroup/buddyinfo.go:115-130 | a file has only one snapshot, so no map order matters |
| PagetypeInfo.InFreeMeaning | pkg/cgroup/pagetypeinfo.go:98-108 | a line is in the section if and only if a header came before it and no block-count line since |
| PagetypeInfo.FiguresMeaning | pkg/cgroup/pagetypeinfo.go:136-161 | the figures of a zone, node and kind are those of its last counted row |
| PagetypeInfo.ReadLines | pkg/cgroup/pagetypeinfo.go:92-162 | fails exactly on an unreadable counted row; the map holds what the lines say |
| PagetypeInfo.ReadAllZones | pkg/cgroup/pagetypeinfo.go:85-170 | succeeds exactly if the file is readable and has a counted row |
| PagetypeInfo.ExcludedForZone | pkg/cgroup/pagetypeinfo.go:172-186 | the sorted entries of a zone, an error exactly if there are none |
| PagetypeInfo.ZoneEntries | pkg/cgroup/pagetypeinfo.go:189-200 | in any order: the entries of every THP zone in use, an error exactly if one has none |
| PagetypeInfo.ExcludedThpZone | pkg/cgroup/pagetypeinfo.go:188-215 | one sorted row per node of buddyinfo from its THP zone, missing rows zero; success independent of order |
| PagetypeInfo.MergeZones | pkg/cgroup/pagetypeinfo.go:224-234 | in any order: Normal and Movable added where both exist |
| PagetypeInfo.UnmovableSum | pkg/cgroup/pagetypeinfo.go:217-244 | the sorted sums of both zones |
| CgroupCollector.ReadPagetype | pkg/cgroup/pagetypeinfo.go:64-75 | succeeds exactly if the file is acceptable and covers every THP zone of the buddyinfo lines |
| CgroupCollector.CollectNodeStats | pkg/cgroup/collector.go:472-492 | what is available, exactly when, including the second read of buddyinfo after a failed first one |
| CgroupCollector.Collector.Poll | pkg/cgroup/collector.go:472-492 | the collector's figures describe the files just read |
| CgroupCollector.Collector.CollectJoined | pkg/cgroup/collector.go:323-339 | in order, one report per node of buddyinfo, buddy and excluded memory from the same zone |
| CgroupCollector.Collector.CollectUnmovable | pkg/cgroup/collector.go:340-345 | without buddyinfo, in order, the unmovable memory of each node pagetypeinfo knows |
| CgroupCollector.ReportsUnique | pkg/cgroup/collector.go:323-339 | the files determine all reports and their order |
| CgroupCollector.ReportedMovable | pkg/cgroup/collector.go:334-335 | a report's movable memory plus excluded, as far as it goes, is buddy; exact and ordered when no order is over-excluded |
| ProcFiles.ShowParses | pkg/cgroup/pagetypeinfo.go:254-260 | a printed count is read back as it is if it fits 64 bits, a saturated one as 100000 |
| ProcFiles.BuddyRoundTrip | pkg/cgroup/buddyinfo.go:70-107 | from the buddyinfo Linux prints, each zone is read with the free blocks of all its types together |
| ProcFiles.PagetypeRoundTrip | pkg/cgroup/pagetypeinfo.go:85-162 | from the pagetypeinfo Linux prints, with sections per node or not, each zone is read with its unmovable and its isolated blocks, capped, and with nothing where it has none |
| ProcFiles.FilesAccepted | pkg/cgroup/pagetypeinfo.go:64-75 | both files are read without an error if each node has a Normal or Movable zone and each zone an unmovable row |
| ProcFiles.StocksAddUp | pkg/cgroup/pagetypeinfo.go:27-45 | the free bytes of a zone are those of the movable kinds, the unmovable and the isolated |
| ProcFiles.UnmovableTruth | pkg/cgroup/pagetypeinfo.go:217-244 | reported unmovable memory is what Linux shows of the Normal and Movable zones of the node, modulo 2^64 |
| ProcFiles.ReportedTruth | pkg/cgroup/collector.go:323-339 | for the THP zone of a node, reported buddy memory is all that is free, and reported movable memory what is neither unmovable nor isolated, exactly if and only if no such count is above 100000 and else too high |
| ProcFiles.CapOverstates | pkg/cgroup/pagetypeinfo.go:16-22 | with 100001 unmovable pages and nothing else free, movable memory is reported |
| ProcFiles.CollectedTruth | pkg/cgroup/collector.go:323-339 | from the free blocks of a machine to what Collect emits: every row tells the truth about the THP zone of one node |
| ProcFiles.CollectedNodes | pkg/cgroup/collector.go:323-339 | and every node has a row |

## Left out

- Library code: go-libvirt, CRI, Kubernetes informers, Prometheus descriptors, JSON, XML, CSV and base64 parsing, `strings.Fields`; their results are inputs.
- PVC names, pod labels, namespaces, disk mapping, device resolution and logging: they label what is modelled and decide nothing about it, except that a namespace filter may drop a resolved sample.
- `ConvertBuckets`, the label filters, pkg/kvm, pkg/vmi, pkg/config, pkg/device, zoneinfo, vmstat and memory.stat: they would only add easy lookups and parses.
- How Linux pads the lines of its proc files, and how they are split: `ProcFiles` starts from the fields of a line, as mm/vmstat.c of Linux prints them.
- Whether an RPC returns once its transport is closed: that depends on go-libvirt.
- Races between CPUs inside one BPF handler, or with the copy of one histogram entry to user space, and wrap-around of 64-bit slot counters.
- IEEE rounding of sums, rates and boundaries, and overflow of 64-bit durations.
- The concurrency limit of the pollers, which restricts the orders considered here.
- The order of published VM results, kept as a map by container; the Go slices have the order in which scrapes finished.
- A concurrent `Programs.Close` at shutdown, which takes no lock.
- NumaRows.SortRows: `sort.Slice` sorts in place; the model sorts a value.
