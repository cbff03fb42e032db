# Proofs about CRose

CRose bundles an Odoo job queue, the gmqtt broker, frp and a WebDAV server. This project models the
parts of it that carry an algorithm or a protocol and proves what they promise. To verify: `dafny verify dfyconfig.toml`.

| files | what they model |
|---|---|
| `Digraph`, `Positions`, `Graph` | walks and cycles; order-keeping parts of a sequence; the job graph with Kahn's algorithm and the enumerator of paths |
| `Elements`, `Flatten`, `FlattenMeaning`, `FlattenExact`, `FlattenWhole`, `FlattenShared` | nested jobs, chains and groups, their flattening into one graph, and exactly when the flat graph means the same order and holds every job, also when jobs are shared |
| `JobQueue`, `JobEffects`, `JobTable`, `JobRuns`, `JobOrder`, `JobDelay` | the state machine of stored jobs, what each transition changes, the code that changes the shared table, properties of whole runs, and `delay()` end to end |
| `JobSnapshots`, `JobStaleRuns` | the same transactions under snapshot isolation, acting on outdated views of the table |
| `Limiter`, `MsgQueue`, `Inflight` | the MQTT packet id allocator, the bounded message queue and the in-flight window of the poll loop |
| `Qos2`, `Delivery`, `Sessions` | the QoS 2 receiver, the two delivery modes with shared subscriptions, the session maps |
| `PackageCopy` | copying a package with its dependencies from staging to production |
| `Resp`, `Decimal` | the RESP2 writer and reader |
| `Spreadsheet` | column names and the cell table |
| `Proxies` | frp's proxy registry and port accounting under concurrent controls |
| `PublishSize`, `PublishRead`, `MessageCopy` | the PUBLISH packet: its size against its encoder, reading it back, and the deep copy of a message |

Objects whose methods update fields are classes; each method is proved equal to, or an instance of, a step of
a specification on values, and the lemmas are about that specification. A section of code that runs under a
lock is one step; a blocking wait is a precondition of the step; clocks, random choices, hooks, network
results and what other goroutines do meanwhile are parameters with arbitrary values.

## Where the code differs from its documentation

- A chain's `_head` delegates to `_tail` and the reverse, and an element without jobs between two others links
  nothing. The order asked for is kept if and only if no operand of a chain or of `on_done` is hurt by either
  (`OperandsAgree` in `FlattenIsExact`); `NestedChainLosesOrder` and `EmptyGroupLosesOrder` give the smallest cases.
- `on_done` of a group without members loses the followers altogether: every job is stored if and only if no such
  group has followers with jobs (`FlattenIsWhole`). `DocumentedOrderIsExact` carries both conditions to whole runs.
- `pollPacketIDs` promises min(max, used) ids in its comment; the code gives min(max, limit - used).
- The dependency protocol survives a step if and only if the step is careful (`StepIsExact`, and over runs
  `RunIsExact`): a DONE job goes back only while no child runs on its result, the runner, whose UPDATE tests no state,
  enqueues only jobs whose parents are done, and a wakeup is lost only when every waiting child has another reason to
  wait. A process that dies between its two transactions, or gives up the second one, loses a wakeup; the children
  without another reason are stranded for good (`LostWakeupIsExact`, `StrandedForever`, `CrashStrandsChild`).
- A transaction may act on an outdated view of the table. A wakeup survives that, because it has a transaction of its
  own that begins after the job is DONE (`WakeupsSurvive`). The button that marks a job done writes and wakes in one
  transaction: two parents marked done at the same time strand their child (`TwoButtonsStrand`). Which outdated views
  are harmless is `CommitIsExact`.
- `max_retries` does not bound the attempts of a job that meets concurrency errors: they are counted but never
  compared with the limit (`ConflictsNeverFail`); the exact condition is `RunBoundIsExact`.
- A full message queue drops an expired in-flight message and releases its packet id while the client still has the
  message. Client and server agree on the unfinished messages if and only if that never happens (`AgreementIsExact`);
  if it does, the receive maximum can be exceeded without bound and ids repeat (`OverrunGrows`, `OverrunRepeatsIds`);
  then an honest acknowledgement can release an id that the poll loop has just been given (`HonestAckBreaks`).
- The queue's first documented priority, to drop an expired in-flight message, is met if and only if the oldest
  in-flight message is expired. With an `inflight_expiry` that is exactly when the oldest is not a PUBREL; without one
  messages keep their own expiry times and a PUBLISH can block as well (`FirstPriorityInRuns`, `OwnExpiryBlocks`).
- A stored MQTT session is kept until its deadline, counted from the disconnection, but a reconnection counts
  from the time of connecting and can find it expired earlier (`ReconnectIsExact`, `ReconnectLosesStoredSession`).
- `TotalBytes` does not count a correlation property that is present and empty; the encoder sends three bytes for
  it. Copies, which is what delivery queues, never have one.
- Two packages can share a key of the visited set when an at sign can end either name (`KeysCollideExactly`); then the
  second is taken for copied (`AtSignsSkip`). All reachable packages are copied if and only if their keys differ.

## Model

| member | source | states |
|---|---|---|
| Graphs.WithEdgeMeaning | crose/queue_job/delay.py:76-82 | `add_edge` adds exactly that edge and both ends, keeps a closed graph closed and is idempotent |
| Graphs.Graph.AddEdge | crose/queue_job/delay.py:76-82 | the graph dict after `add_edge` |
| Graphs.Graph.AddVertex | crose/queue_job/delay.py:69-74 | the graph dict after `add_vertex` |
| Graphs.Graph.Edges | crose/queue_job/delay.py:88-96 | lists every edge once and nothing else |
| Graphs.Graph.RootVertices | crose/queue_job/delay.py:147-155 | exactly the vertices without a parent |
| Graphs.Graph.Paths | crose/queue_job/delay.py:98-123 | on any closed graph, cyclic or not: every maximal cycle-free path from the vertex, each once, nothing else |
| Graphs.PathSearch.Search | crose/queue_job/delay.py:107-121 | appends exactly the maximal extensions of the current path and restores `path` and `seen` |
| Graphs.Graph.TopologicalSort | crose/queue_job/delay.py:125-145 | terminates on any closed graph and yields exactly the vertices no cycle leads to, each once, after all its parents |
| Graphs.Graph.CountDependencies | crose/queue_job/delay.py:132-134 | the counter of every vertex is its number of parents |
| Graphs.Graph.ResolveChildren | crose/queue_job/delay.py:142-145 | the inner loop queues exactly the vertices whose last parent was emitted |
| Graphs.AncestorsFirst | crose/queue_job/delay.py:125-145 | parents first implies all ancestors first |
| Graphs.EmittedIffNotBehindCycle | crose/queue_job/delay.py:133-145 | a run of Kahn's algorithm that can go no further emitted exactly the vertices not reachable from a cycle |
| Graphs.KahnDecrement | crose/queue_job/delay.py:140-145 | the counter dictionary stays the number of parents not emitted yet while one vertex is resolved |
| Graphs.AcyclicOrderIsComplete | crose/queue_job/delay.py:125-145 | on an acyclic graph the order is a permutation of all vertices with every ancestor first |
| Flatten.BuildChain | crose/queue_job/delay.py:319-328 | a new chain's graph links each item to the next one and nothing else |
| Flatten.BuildGroup | crose/queue_job/delay.py:376-380 | a new group's graph has its members and no edge |
| Flatten.OnDone | crose/queue_job/delay.py:514-522 | an edge to every follower and nothing else |
| Flatten.BuildGraph | crose/queue_job/delay.py:340-348 | the graph of an element with what `on_done` attached to it |
| Flatten.MergeGraph | crose/queue_job/delay.py:172-186 | an edge from every tail job to every head job of each edge, and the vertices of unconnected elements |
| Flatten.VisitVertices | crose/queue_job/delay.py:204-210 | one round of the visit merges the graph of every vertex it meets |
| Flatten.ConnectGraphs | crose/queue_job/delay.py:188-212 | terminates; the flat graph is exactly the union of the merged graphs of all elements inside the top one |
| FlattenExact.ReachSound | crose/queue_job/delay.py:172-212 | flattening never invents an order: what is reachable was asked for |
| FlattenExact.FlatIsJobDag | crose/queue_job/delay.py:188-212 | the flat graph has exactly the attached jobs as vertices, every edge target is a vertex, and it has no cycle |
| FlattenMeaning.ChecksAreExact | crose/queue_job/delay.py:330-334 | when the swapped `_head` and `_tail` still cover the first and the last jobs, decided by the shape alone |
| FlattenExact.ReachComplete | crose/queue_job/delay.py:172-212 | the flat graph has every order asked for once each pair with no job between is an edge |
| FlattenExact.FlattenIsExact | crose/queue_job/delay.py:172-212 | reachability in the flat graph is the order asked for among the attached jobs if and only if all operands agree; elements may be empty |
| FlattenExact.DisagreementLosesOrder | crose/queue_job/delay.py:172-186 | every operand that disagrees loses the order of two jobs |
| FlattenWhole.FlattenIsWhole | crose/queue_job/delay.py:382-398 | every job handed over is a vertex if and only if no group without members has followers with jobs; and then reachability is all that was asked for if and only if the operands agree |
| FlattenWhole.PlainEndsAgree | crose/queue_job/delay.py:319-334 | chains that start and end with jobs or groups of jobs always agree and lose nothing |
| FlattenWhole.NestedChainLosesOrder | crose/queue_job/delay.py:330-334 | a chain that ends with a chain, used as an operand, loses an order |
| FlattenWhole.EmptyGroupLosesOrder | crose/queue_job/delay.py:382-386 | an empty group in a chain loses the order across it |
| FlattenShared.SharedReachSound | crose/queue_job/delay.py:172-212 | also when jobs are shared, what is reachable was asked for, and a cycle appears only if one is asked for |
| FlattenShared.SharedIsExact | crose/queue_job/delay.py:172-212 | also when jobs are shared: the vertices are the attached jobs, and reachability is the order asked for, chained over shared jobs, if and only if in every element the last jobs of one neighbour reach the first of the next; agreeing operands are enough for that |
| FlattenShared.SharedReachComplete | crose/queue_job/delay.py:172-186 | where neighbours are joined, every order asked for inside any element is in the flat graph |
| FlattenShared.ChecksSuffice | crose/queue_job/delay.py:330-334 | the shape checks suffice for covering first and last jobs, shared or not |
| FlattenShared.TreeOrder | crose/queue_job/delay.py:172-212 | without sharing the direct order is already chained and has no cycle |
| FlattenShared.ExecuteGraphDirect | crose/queue_job/delay.py:293-296 | runs every attached job at most once, exactly once unless a cycle is asked for, in the order asked for when the operands agree; with unshared jobs every job handed over if and only if nothing is lost |
| JobQueue.NextKeepsInv | crose/queue_job/job.py:522-563 | every careful transition keeps mirrored lists, dependency safety and no lost wakeup |
| JobQueue.StepIsExact | crose/queue_job/jobrunner/runner.py:207-215 | any transition keeps them if and only if it is careful, also the runner's unconditional ENQUEUED update, the lost wakeup and the requeue |
| JobQueue.RunIsExact | crose/queue_job/job.py:522-563 | a run of any possible transitions keeps them in every state if and only if all its steps are careful |
| JobQueue.EveryRunIsSafe | crose/queue_job/job.py:786-831 | in every run a PENDING, ENQUEUED or STARTED job has all parents DONE, and with no wakeup under way a waiting job has a parent that is not |
| JobQueue.RequeueDoneIsExact | crose/queue_job/models/queue_job.py:347-352 | requeuing a DONE job keeps the protocol if and only if no child of it is active |
| JobQueue.WakesExactly | crose/queue_job/job.py:522-558 | the UPDATE of `enqueue_waiting` sets to PENDING exactly the waiting children whose parents are all done |
| JobQueue.WakeKeeps | crose/queue_job/job.py:555-558 | after it no waiting child is left without a reason to wait |
| JobQueue.RetryBoundIsExact | crose/queue_job/controllers/main.py:161-173 | a step keeps active jobs within one attempt more than `max_retries` if and only if it is not a concurrency error of a job beyond its limit nor brings back a job that ended beyond it |
| JobQueue.RunBoundIsExact | crose/queue_job/job.py:480-511 | the same over whole runs of any possible steps |
| JobQueue.CancelKeeps | crose/queue_job/job.py:560-563 | the UPDATE of `cancel_dependent_jobs` keeps safety and reasons to wait |
| JobQueue.NoDeadlock | crose/queue_job/job.py:522-563 | with acyclic dependencies and nothing failed, unfinished work always has a job that can move or a wakeup under way |
| JobQueue.CanFinish | crose/queue_job/job.py:786-831 | from every such state a run finishes all jobs; each done-step strictly shrinks the unfinished set |
| JobEffects.StatesAreEarned | crose/queue_job/controllers/main.py:60-193 | in every possible run a job is DONE only by an execution of it that succeeded or by hand, FAILED only by its own errors or found dead, CANCELLED only with itself or a parent, and owes a wakeup only for an execution that succeeded |
| JobEffects.ButtonDoneExactly | crose/queue_job/models/queue_job.py:312-337 | marking a job done makes it DONE and its children PENDING that wait for it alone, and changes no other row |
| JobEffects.ButtonCancelledExactly | crose/queue_job/models/queue_job.py:322-345 | cancelling a job also cancels exactly its waiting children whose other parents are all cancelled |
| JobEffects.WakeupExactly | crose/queue_job/job.py:555-558 | a wakeup of a DONE job makes exactly the children PENDING that wait for it alone |
| JobEffects.RequeueExactly | crose/queue_job/models/queue_job.py:319-352 | requeuing sets the retry count to 0 and the state by the parents, in one row |
| JobEffects.RunnerStepsExactly | crose/queue_job/jobrunner/runner.py:207-280 | enqueueing, starting and bringing back a dead job: the new state, the retry count, and no other row |
| JobEffects.DelayExactly | crose/queue_job/delay.py:248-291 | a stored batch: each new row with its own lists, limit and state, and all earlier rows as they were |
| JobRuns.EveryRunCanFinish | crose/queue_job/job.py:786-831 | every run of acyclic graphs without failures can be continued until all jobs are DONE |
| JobRuns.RunKeepsAcyclic | crose/queue_job/delay.py:248-291 | storing graphs and running jobs never closes a cycle of dependencies |
| JobOrder.AncestorsDone | crose/queue_job/job.py:522-563 | a job that may run or ran has all its ancestors done, not only its parents |
| JobOrder.FinishAncestors | crose/queue_job/job.py:522-563 | a waiting job becomes PENDING in some automatic run in which no job but its ancestors is finished |
| JobDelay.DocumentedOrderIsExact | crose/queue_job/delay.py:248-291 | end to end: after `delay()` every job handed over is stored and in every automatic run a job becomes PENDING only after all jobs asked to precede it are done, if and only if nothing is lost and the operands agree |
| JobDelay.DelayedReaches | crose/queue_job/delay.py:265-266 | among the jobs of a batch the stored dependencies give exactly the order of the flat graph |
| JobRuns.RetriesAreExhausted | crose/queue_job/job.py:480-511 | a job that keeps asking for a retry fails on attempt number `max_retries` and not before; with 0 it never fails |
| JobRuns.ConflictsNeverFail | crose/queue_job/controllers/main.py:161-180 | a job that keeps meeting concurrency errors is postponed every time, whatever its limit, and each time counted |
| JobRuns.LostWakeupIsExact | crose/queue_job/controllers/main.py:113-144 | losing a wakeup keeps the protocol if and only if every waiting child of the job has another reason to wait, and strands exactly the others |
| JobRuns.StrandedForever | crose/queue_job/job.py:522-558 | a stranded job stays waiting in every run without manual transitions and outdated runner views |
| JobRuns.CrashStrandsChild | crose/queue_job/controllers/main.py:95-144 | a run in which a crash after committing DONE strands the child, and nothing but a new batch moves any more |
| JobDelay.SharedOrderIsExact | crose/queue_job/delay.py:248-291 | the same with shared jobs and no cycle asked for: every automatic run keeps the order if and only if neighbours are joined in the flat graph |
| JobDelay.DelayTree | crose/queue_job/delay.py:248-291 | `delay()` connects the graphs, refuses an empty one and one in which a job depends on itself, stores nothing when all jobs with an identity key exist, and otherwise stores one row per job with its own limit and exactly the flat graph's dependencies |
| JobDelay.FindSelfDependency | crose/queue_job/job.py:469-478 | whether some dependency is of a job on itself |
| JobSnapshots.CommitIsExact | crose/queue_job/models/queue_job.py:306-352 | a transaction that commits on a table it did not see keeps the protocol if and only if what it read is still right: each child it wakes has all parents done, each other waiting child keeps a reason, and the new state of its own job is true |
| JobSnapshots.CurrentIsNext | crose/queue_job/job.py:522-558 | seeing the current table, a transaction is a step of the protocol |
| JobSnapshots.TwoButtonsStrand | crose/queue_job/models/queue_job.py:312-318 | two parents marked done by overlapping transactions: both commit, and the child that waits for just these is stranded |
| JobStaleRuns.WakeupsSurvive | crose/queue_job/controllers/main.py:95-144 | however outdated the views of the wakeups, no run of them and of automatic steps starts a job too early or strands one |
| JobStaleRuns.DeliverIsCareful | crose/queue_job/job.py:555-558 | a wakeup that began after its job was done wakes rightly when it commits |
| JobDelay.FindExisting | crose/queue_job/delay.py:270-288 | whether some job has an identity key and every one that has finds a stored job |
| JobTables.JobTable.AddDepends | crose/queue_job/job.py:469-478 | refuses a job depending on itself; otherwise extends both lists and sends the job to waiting if and only if a parent is not done; no other row changes |
| JobTables.JobTable.UpdateDependentJobs | crose/queue_job/job.py:522-550 | the joined and aggregated UPDATE changes exactly the waiting children of the same graph whose parents all have the required state |
| JobTables.JobTable.ResetToPending | crose/queue_job/job.py:786-799 | `set_pending`: waiting unless every parent is done, and the retry count kept or reset |
| JobTables.JobTable.PerformJob | crose/queue_job/controllers/main.py:147-193 | one execution: DONE and owing a wakeup if and only if it succeeded; FAILED if and only if it raised or asked for its last retry; otherwise back to PENDING or waiting by the parents; the retry count, and no other row |
| JobTables.JobTable.EnqueueWaitingJobs | crose/queue_job/job.py:555-558 | the step after the parent's own transaction: exactly the children that wait for this job alone become PENDING |
| JobTables.JobTable.ChangeJobState | crose/queue_job/models/queue_job.py:306-352 | the manual transitions to done, cancelled and pending, row by row: the job itself, the children woken or cancelled with it, and nothing else |
| JobTables.JobTable.DelayGraph | crose/queue_job/delay.py:248-291 | building the jobs edge by edge stores one row per job with the ends of exactly its edges, waiting if and only if it has a parent, and leaves the earlier rows alone |
| Limiter.PacketIDLimiter.PollPacketIDs | gmqtt/server/limiter.go:43-74 | min(max, limit - used) distinct, previously unlocked ids in 1..65535, and locks exactly those; nothing after close |
| Limiter.PacketIDLimiter.FindFree | gmqtt/server/limiter.go:57-63 | the inner search ends on an unlocked id by passing locked ids only |
| Limiter.SomeIdIsFree | gmqtt/server/limiter.go:56-63 | fewer than 65535 locked ids leave one free |
| Limiter.RoundRobin | gmqtt/server/limiter.go:56-73 | between two visits of one id the cursor visits every other id, over any interleaving of polls, releases and marks |
| Limiter.ReleaseAllMeans | gmqtt/server/limiter.go:84-99 | a batch release unlocks exactly the given ids and keeps counter and bitmap in step, duplicates included |
| Limiter.PacketIDLimiter.BatchRelease | gmqtt/server/limiter.go:91-99 | the loop does what the release of each id in turn does |
| Limiter.PacketIDLimiter.ReleaseId | gmqtt/server/limiter.go:77-89 | unlocks the id and counts down only when it was locked |
| Limiter.PacketIDLimiter.Close | gmqtt/server/limiter.go:32-37 | changes nothing but the exit flag |
| Limiter.PacketIDLimiter.MarkUsedLocked | gmqtt/server/limiter.go:101-105 | the counter gets ahead of the bitmap by one if and only if the id was locked before |
| Limiter.PollKeepsDrift | gmqtt/server/limiter.go:56-73 | polls leave the counter as far ahead as it was |
| Inflight.WindowIsExact | gmqtt/server/client.go:1483-1515 | over runs in which no acknowledgement names an id in the loop's hands: the locked ids are exactly those of messages in flight, at most the receive maximum, and the client has at most one more unfinished message per message dropped in flight |
| Inflight.StepIsExact | gmqtt/server/queue_notifier.go:38-49 | while client and server agree, an honest acknowledgement keeps the accounting, and they go on agreeing if and only if the step drops no in-flight message |
| Inflight.AgreementIsExact | gmqtt/server/queue_notifier.go:38-49 | over every run of an honest client they agree in every state if and only if no in-flight message is ever dropped |
| Inflight.OverrunGrows | gmqtt/persistence/queue/mem/mem.go:109-118 | with a receive maximum of one, for every n a run leaves the client with n + 1 unfinished messages |
| Inflight.OverrunRepeatsIds | gmqtt/persistence/queue/mem/mem.go:109-118 | a run leaves the client with two unfinished messages under one id |
| Inflight.HonestAckBreaks | gmqtt/server/client.go:1177-1189 | then an honest acknowledgement names an id in the loop's hands and breaks the accounting |
| Inflight.AccountingIsExact | gmqtt/server/client.go:1177-1226 | over every run the accounting is exact in every state if and only if no acknowledgement names an id in the loop's hands |
| Inflight.FirstPriorityInRuns | gmqtt/persistence/queue/mem/mem.go:113-118 | in every run, a full queue with an expired in-flight message drops one if and only if the oldest is expired; with an in-flight lifetime, if and only if the oldest is not a PUBREL |
| Inflight.OwnExpiryBlocks | gmqtt/persistence/queue/mem/mem.go:222-226 | without an in-flight lifetime a run in which an unexpired PUBLISH hides an expired one |
| Inflight.StepKeepsInv | gmqtt/server/client.go:1177-1226 | polls, reads, releases, additions that drop, and acknowledgements of ids not in the loop's hands keep the accounting |
| Inflight.AckIsExact | gmqtt/server/client.go:1177-1189 | an acknowledgement keeps the accounting if and only if its id is not one the poll loop still holds |
| Inflight.SentIdsAreUnused | gmqtt/server/client.go:1460-1481 | a message goes out under an id no in-flight message uses, and no message the client still has while the views agree |
| MsgQueue.ReadUsesPrefix | gmqtt/server/client.go:1460-1481 | the ids the queue uses are a prefix of those offered, which the reslicing in the poll loop relies on |
| MsgQueue.FirstPriorityIsExact | gmqtt/persistence/queue/queue.go:34-39 | the documented first priority of a full queue is met if and only if the oldest in-flight message is expired; where they expire oldest first, if and only if the oldest is not a PUBREL |
| MsgQueue.AddedKeeps | gmqtt/persistence/queue/mem/mem.go:82-162 | whatever is dropped, the queue stays within its maximum, only an expired oldest message leaves the in-flight part, and a message that is taken comes last |
| MsgQueue.PrioritiesAreMet | gmqtt/persistence/queue/queue.go:34-39 | a full queue whose oldest in-flight message is not expired gives up, in this order: the new message if it is drained and nothing is unread, the first expired unread one, the first unread one of QoS 0, the new one if it has QoS 0 or the queue is not drained, the front unread one; a message that is taken comes last |
| MsgQueue.ReadMeans | gmqtt/persistence/queue/mem/mem.go:193-236 | a read takes one message per id from the front and returns, in order, exactly those neither expired nor too big |
| MsgQueue.NeedAckKeeps | gmqtt/persistence/queue/mem/mem.go:214-229 | of the messages returned exactly those of QoS 1 and 2 stay in flight, in order |
| MsgQueue.ReadKeepsOrder | gmqtt/persistence/queue/mem/mem.go:222-226 | with an in-flight lifetime the in-flight messages expire in the order in which they were read |
| MsgQueue.MemQueue.Add | gmqtt/persistence/queue/mem/mem.go:82-162 | a queue that is not full takes the message; a full one drops by the documented priorities, each said of the queue before and after |
| MsgQueue.MemQueue.FindVictim | gmqtt/persistence/queue/mem/mem.go:124-138 | the first expired unread message, else the first of QoS 0 |
| MsgQueue.MemQueue.Read | gmqtt/persistence/queue/mem/mem.go:177-236 | drops expired and oversized messages and returns all others in order, one taken per id; gives ids out in order and moves what needs an acknowledgement into flight |
| MsgQueue.MemQueue.Replace | gmqtt/persistence/queue/mem/mem.go:164-175 | PUBREL takes the place of the first in-flight message with its id |
| MsgQueue.MemQueue.Remove | gmqtt/persistence/queue/mem/mem.go:264-279 | removes the first in-flight message with the id and no unread one |
| Inflight.Client.PollNewMessages | gmqtt/server/client.go:1460-1481 | writes what was read and keeps exactly the ids that were not used |
| Inflight.Client.PollIds | gmqtt/server/client.go:1501-1508 | asks for at most min(100, MaxInflight) ids |
| Inflight.Client.ReleaseUnused | gmqtt/server/client.go:1513-1513 | gives back exactly the ids left over |
| Inflight.Client.Deliver | gmqtt/server/queue_notifier.go:38-42 | adding a message, with the release of the id of a dropped in-flight message |
| Inflight.Client.Finish | gmqtt/server/client.go:1177-1226 | PUBACK, PUBCOMP and error PUBREC release the id |
| Qos2.DeliveredAtMostOnce | gmqtt/server/client.go:1092-1158 | between two deliveries of one packet id there is a PUBREL of it |
| Qos2.ForgottenWasNotDelivered | gmqtt/server/client.go:1148-1153 | an id dropped because of an error code was not delivered since its last PUBREL |
| Qos2.UnackIsExact | gmqtt/server/client.go:1092-1158 | the unack set holds exactly the ids with a PUBLISH without an error code since their last PUBREL; error codes exist in MQTT 5 only |
| Qos2.DeliveryIsExact | gmqtt/server/client.go:1092-1158 | a QoS 2 PUBLISH is delivered if and only if the hook accepts it and no PUBLISH since the last PUBREL holds its id |
| Qos2.RefusedMessageStaysHeld | gmqtt/server/client.go:1134-1153 | in MQTT 3.1.1 a message the hook refused keeps its id, so its repetition is not delivered |
| Qos2.Receiver.PublishHandler | gmqtt/server/client.go:1092-1158 | the unack set, the delivery and the reply code of one PUBLISH |
| Qos2.Receiver.SetUnack | gmqtt/persistence/unack/mem/mem.go:33-39 | adds the id and tells whether it was there |
| Qos2.Receiver.PubrelHandler | gmqtt/server/client.go:1190-1198 | PUBREL frees exactly its id |
| Qos2.Receiver.Serve | gmqtt/server/client.go:1092-1198 | over a whole connection the packets delivered are the ones the theorems speak of |
| Delivery.ModesAgree | gmqtt/server/server.go:650-743 | "onlyonce" gives a client a copy if and only if "overlap" does, at most one; its QoS is the lower of the message's and the highest of the matching subscriptions, and so the highest of the overlap copies; it has all their non-zero subscription ids in order |
| Delivery.DeliverMessage | gmqtt/server/server.go:746-752 | every queue grows by exactly the copies of the mode, each shared group picks one member in both modes, and `matched` tells whether any subscription but a noLocal one of the publisher matched |
| Delivery.DeliverHandler.OnMatch | gmqtt/server/server.go:672-721 | one callback keeps the group lists, the best subscriptions and the queues in step with the matches seen |
| Delivery.DeliverHandler.Flush | gmqtt/server/server.go:723-743 | after flushing, the queues hold what the mode promises |
| Delivery.DeliverHandler.KeepBest | gmqtt/server/server.go:704-718 | keeps the first subscription of the highest QoS and all ids in order |
| Delivery.DeliverHandler.QueueOverlap | gmqtt/server/server.go:697-702 | queues one copy for this subscription |
| Delivery.DeliverHandler.FlushShared | gmqtt/server/server.go:724-736 | one arbitrary member per shared group, each group once |
| Delivery.DeliverHandler.FlushKept | gmqtt/server/server.go:737-742 | one copy per remembered client that has a queue |
| Delivery.Server.AddMsgToQueue | gmqtt/server/server.go:606-647 | one copy at the end of this client's queue, with the lower QoS of message and subscription, ids appended without zeros, dup cleared, retained if and only if both say so; nothing if and only if it is QoS 0 for an offline client and such are not kept; other queues untouched |
| Delivery.NonzeroKeeps | gmqtt/server/server.go:617-621 | the ids appended are the non-zero ones, in order |
| Delivery.OwnKeeps | gmqtt/server/server.go:682-696 | a client's copies come from exactly its matches that are neither shared nor a noLocal subscription of the publisher, in order |
| Delivery.MembersKeeps | gmqtt/server/server.go:682-695 | a shared group holds exactly the matches with its share name and filter, without the publisher's own noLocal ones |
| Delivery.OverlapKeeps | gmqtt/server/server.go:697-702 | "overlap": one lowered copy per subscription, in order |
| Delivery.BestIsFirst | gmqtt/server/server.go:704-718 | "onlyonce" keeps the first subscription of the highest QoS |
| Delivery.PickedKeeps | gmqtt/server/server.go:723-736 | one lowered copy for each pick of the client |
| Sessions.EveryRunKeepsInv | gmqtt/server/server.go:342-499 | after every step of every run: online and offline disjoint, their union the stored sessions, each with its own queue and unack store |
| Sessions.StepKeepsInv | gmqtt/server/server.go:342-604 | every locked step keeps that invariant, also when the session it read is out of date |
| Sessions.InconsistentIsExact | gmqtt/server/server.go:307-339 | the "inconsistent session state" branch is taken if and only if the session vanished while the lock was released; never when the session seen is the stored one |
| Sessions.InconsistentHappens | gmqtt/server/server.go:307-339 | a run in which the branch is taken |
| Sessions.SessionGoesOn | gmqtt/server/server.go:417-467 | a step keeps a session's queue if and only if it does not end the session, and likewise its unack store |
| Sessions.QueueLifetime | gmqtt/server/server.go:754-770 | a queue found twice in a run belonged to the same client all the time between, and no step between ended that session |
| Sessions.QueueKept | gmqtt/server/server.go:342-499 | while no step ends it a session keeps its queue |
| Sessions.RegisterStartsAfresh | gmqtt/server/server.go:466-488 | a connection that does not resume a session gets a queue and an unack store that no client has |
| Sessions.StoresGoTogether | gmqtt/server/server.go:466-488 | in every run a session's queue and unack store are made, kept and given up together |
| Sessions.UnackLifetime | gmqtt/server/server.go:342-499 | an unack store found in use twice belonged to the same client's session all the time between, and no step between ended it |
| Sessions.UnackGoneForGood | gmqtt/server/server.go:466-488 | once its session ends, an unack store is used by no session again |
| Sessions.ReconnectIsExact | gmqtt/server/server.go:417-423 | a reconnection without clean start resumes if and only if it comes within the interval counted from connecting |
| Sessions.ReconnectLosesStoredSession | gmqtt/session.go:22-24 | a stored session that is not overdue can be lost on reconnection |
| Sessions.Server.RegisterClient | gmqtt/server/server.go:342-499 | the maps after connecting: the new session and connection, no offline entry, other clients untouched; a session is resumed, with both its stores, if and only if the one seen is not expired, no clean start is asked for and it still exists; otherwise both stores are new |
| Sessions.Server.UnregisterClient | gmqtt/server/server.go:533-604 | the session stays, offline until its interval ends, if and only if removal is not forced and the interval in force is not zero; otherwise it leaves all maps but the unack stores |
| Sessions.Server.SessionExpireCheck | gmqtt/server/server.go:793-806 | removes exactly the overdue offline sessions |
| Sessions.Server.RemoveSession | gmqtt/server/server.go:754-791 | removes the client from all maps but the unack stores |
| Sessions.Server.TerminateSession | gmqtt/server/server.go:143-159 | removes an offline session, leaves an online one to its connection |
| Sessions.DisconnectIsExact | gmqtt/server/client.go:1331-1361 | a session outlives its DISCONNECT if and only if it had an interval, the DISCONNECT does not set it to zero and removal is not forced; then the deadline counts the interval in force |
| Sessions.Server.HandleDisconnect | gmqtt/server/client.go:1331-1361 | refuses an interval for a session without one, skips a zero interval, stores any other |
| Sessions.Server.SetSessionExpiry | gmqtt/server/client.go:1348-1355 | changes the interval of a stored session only |
| PackageCopy.Copier.CopyRoot | crose/feitas_iot/models/crose_nr_package.py:39-106 | terminates on cyclic dependencies; fails only if a reachable package is not stored; otherwise copied only reachable packages, each once, and all of them if and only if their keys differ; with differing keys it succeeds if and only if everything reachable is stored |
| PackageCopy.Copier.CopyPackage | crose/feitas_iot/models/crose_nr_package.py:39-106 | the recursive search with the shared visited set |
| PackageCopy.Copier.Mark | crose/feitas_iot/models/crose_nr_package.py:64-89 | copies the tarball and the version entry of one package and marks its key |
| PackageCopy.Copier.CopyDependencies | crose/feitas_iot/models/crose_nr_package.py:91-104 | every stored version of every dependency is visited |
| PackageCopy.Copier.CopyVersions | crose/feitas_iot/models/crose_nr_package.py:95-104 | every stored version of one dependency is visited |
| PackageCopy.BaseIsLastPart | crose/feitas_iot/models/crose_nr_package.py:95-95 | the base name has no slash and is what follows the last one, or the whole name |
| PackageCopy.SuccessorsAreListed | crose/feitas_iot/models/crose_nr_package.py:91-104 | a package leads to a version of a dependency if and only if the dependency's directory lists the base name, a dash and the version |
| PackageCopy.ScopedDependency | crose/feitas_iot/models/crose_nr_package.py:95-104 | a scoped dependency is found under its name without the scope, a plain one under its name |
| PackageCopy.EdgeIsDependency | crose/feitas_iot/models/crose_nr_package.py:91-104 | the edges of the graph that is searched are exactly those |
| PackageCopy.ClosedHoldsReachable | crose/feitas_iot/models/crose_nr_package.py:39-106 | a visited set closed under dependencies holds everything reachable |
| PackageCopy.PlainVersionsHaveDistinctKeys | crose/feitas_iot/models/crose_nr_package.py:43-45 | without at signs in versions the visited keys are unambiguous |
| PackageCopy.FinishedIsExact | crose/feitas_iot/models/crose_nr_package.py:43-45 | a search that visited the keys of all dependencies copied everything reachable if and only if the keys of the reachable packages differ |
| PackageCopy.KeysCollideExactly | crose/feitas_iot/models/crose_nr_package.py:43-43 | two packages share a key if and only if an at sign of it can end either name |
| PackageCopy.AtSignsSkip | crose/feitas_iot/models/crose_nr_package.py:43-45 | a staging area in which everything is stored and yet a dependency is skipped |
| Resp.RoundTrip | webdav/lib/store_redis.go:212-292 | reading any reply of RESP2 followed by any bytes gives the value and leaves exactly those bytes |
| Resp.RequestRoundTrip | webdav/lib/store_redis.go:200-210 | the bytes of `writeRESP(args)` read back as exactly `args`, for all byte strings |
| Resp.Stable | webdav/lib/store_redis.go:212-292 | a reply that can be read does not depend on what follows it |
| Resp.NoPartialReply | webdav/lib/store_redis.go:212-292 | no proper beginning of a reply reads as a reply |
| Resp.ErrorInsideArray | webdav/lib/store_redis.go:270-277 | an error reply inside an array ends the reading at once and leaves the later items unread |
| Resp.Parse | webdav/lib/store_redis.go:212-282 | on success a non-empty beginning of the input was consumed |
| Resp.WireForm | webdav/lib/store_redis.go:200-210 | the bytes of every kind of reply, in ASCII |
| Resp.ShownInPlaces | webdav/lib/store_redis.go:201-206 | `%d` writes decimal digits, the most significant first |
| Resp.ReplyByHeader | webdav/lib/store_redis.go:212-282 | what any header line makes of any bytes after it: value, missing value, server error, bad number, bad type, end of input or panic |
| Resp.NoLine | webdav/lib/store_redis.go:284-292 | without a line feed there is no reply |
| Resp.ParseIntMeans | webdav/lib/store_redis.go:231-246 | exactly which numbers are read: a sign or none, digits, within 64 bits |
| Resp.Writer.WriteResp | webdav/lib/store_redis.go:200-210 | sends the wire form of an array of bulk strings |
| Resp.Reader.ReadResp | webdav/lib/store_redis.go:212-282 | terminates on every input with the specified value, failure or panic, and the cursor where the specification leaves it |
| Resp.Reader.NextLine | webdav/lib/store_redis.go:284-292 | the text up to the first line feed without the line ending |
| Resp.Reader.NextBulk | webdav/lib/store_redis.go:250-257 | the announced number of bytes and two more, or the end of the input |
| Resp.Reader.NextItems | webdav/lib/store_redis.go:270-278 | the loop over the items stops at the first failure |
| Spreadsheet.ColumnToName | crose/feitas_iot/models/data_model.py:1533-1542 | the loop computes the name whose index is the given column |
| Spreadsheet.NameOfIndex | crose/feitas_iot/models/data_model.py:1533-1542 | every non-empty A-Z string is the name of its index: with `IndexOfName`, a bijection |
| Spreadsheet.IndexOfName | crose/feitas_iot/models/data_model.py:1533-1542 | the name of a column determines the column |
| Spreadsheet.NamesKeepOrder | crose/feitas_iot/models/data_model.py:1533-1542 | columns in order if and only if names in order, shorter first, then alphabetical |
| Spreadsheet.CellInjective | crose/feitas_iot/models/data_model.py:1469-1477 | no two (row, column) pairs share a cell key |
| Spreadsheet.ShownInPlaces | crose/feitas_iot/models/data_model.py:1473-1475 | row numbers are written in decimal, the most significant digit first |
| Spreadsheet.BuildSheet | crose/feitas_iot/models/data_model.py:1463-1491 | exactly (rows + 1) * columns cells, each text under its own key, and widths from the longest text of each column |
| Spreadsheet.FillRow | crose/feitas_iot/models/data_model.py:1473-1479 | one data row adds exactly its cells and updates the longest lengths |
| Spreadsheet.FillHeaders | crose/feitas_iot/models/data_model.py:1467-1471 | the header row |
| Spreadsheet.ColumnWidths | crose/feitas_iot/models/data_model.py:1481-1485 | the width of each column |
| Proxies.EveryRunKeepsInv | frp/server/control.go:429-522 | over any interleaved history every control accounts for exactly its ports, registry entries and listeners |
| Proxies.AfterKeepsInv | frp/server/control.go:429-522 | each locked section of any control keeps that accounting for all controls |
| Proxies.StepKeepsPorts | frp/server/control.go:460-478 | reservations and their deferred return keep `portsUsedNum` exact and within the limit |
| Proxies.RegistryIsUnion | frp/server/proxy/proxy.go:386-408 | the registry is the disjoint union of what the controls hold |
| Proxies.NamesAreUnique | frp/server/proxy/proxy.go:386-395 | no name is held by two controls |
| Proxies.QuietStateIsExact | frp/server/control.go:459-522 | between operations the registry is the union of the controls' maps, nothing else listens, and with a limit `portsUsedNum` is the sum of the ports and within it |
| Proxies.DeadLeavesNothing | frp/server/control.go:310-336 | a control that was torn down leaves no entry and no listener |
| Proxies.RegistrationIsAllOrNothing | frp/server/control.go:429-504 | a registration adds exactly the proxy or restores the control, wherever it fails |
| Proxies.StepSparesOthers | frp/server/control.go:294-308 | no step of a control touches the entries or listeners of another |
| Proxies.Control.RegisterProxy | frp/server/control.go:429-504 | follows the locked sections of the protocol, with other controls acting while the proxy starts, and rolls back on every failure |
| Proxies.Control.CloseProxy | frp/server/control.go:506-522 | follows the three sections of closing; the name and the listener are free afterwards |
| Proxies.Control.Rollback | frp/server/control.go:471-477 | the deferred block gives back what was reserved |
| Proxies.Manager.Add | frp/server/proxy/proxy.go:386-395 | refuses a name in use and changes nothing then |
| Proxies.Manager.Del | frp/server/proxy/proxy.go:404-408 | frees the name |
| Proxies.Control.TearDown | frp/server/control.go:318-330 | follows the sections of the teardown, one proxy at a time, and closes exactly the proxies the control had |
| Proxies.LatestControlStays | frp/server/control.go:56-76 | the control of a run id is the last one added unless it deleted itself: an old control never removes its successor |
| Proxies.EveryControlIsAccounted | frp/server/control.go:56-76 | every control added is current, was closed as replaced, or deleted itself |
| Proxies.ControlManager.Del | frp/server/control.go:69-76 | deletes only the same control |
| Proxies.ControlManager.Add | frp/server/control.go:56-67 | returns the control that had the run id, closes it and replaces it |
| PublishSize.TotalBytes | gmqtt/message.go:78-119 | equals the length of the encoded packet if and only if there is no empty correlation property, and is never more, whenever the remaining length fits |
| PublishSize.PropertyLength | gmqtt/message.go:84-108 | the loops add up the length of the property bytes, less an empty correlation property |
| PublishSize.AddSubIds | gmqtt/message.go:95-98 | the loop over the subscription identifiers adds the length of their bytes |
| PublishSize.AddUser | gmqtt/message.go:104-106 | the loop over the user properties adds the length of their bytes |
| PublishSize.AddHeader | gmqtt/message.go:111-118 | the fixed header on top of the remaining length, in 32 bits |
| PublishSize.VarIntLength | gmqtt/message.go:64-75 | the table of lengths is the length of the variable byte integer |
| PublishSize.MakeLength | gmqtt/pkg/packets/packets.go:257-285 | the loop fills the buffer with exactly the encoding |
| PublishSize.VarIntRoundTrip | gmqtt/pkg/packets/packets.go:257-309 | reading back an encoded length, with 32-bit shifts, gives the length and what follows |
| PublishSize.PacketIsFramed | gmqtt/pkg/packets/publish.go:51-81 | the fixed header read from a packet announces exactly the bytes that follow it |
| PublishRead.MessageRoundTrip | gmqtt/message.go:122-190 | a message that is sent and read arrives as the same message, in MQTT 3.1.1 as far as that carries it, if and only if its texts are valid, it is no duplicate of QoS 0 and carries no subscription identifier; otherwise it is refused |
| PublishRead.PublishRoundTrip | gmqtt/pkg/packets/publish.go:29-108 | any PUBLISH packet, whatever follows it, reads back as it was sent if and only if a server takes it, and leaves exactly what follows |
| PublishRead.PropertiesRoundTrip | gmqtt/pkg/packets/properties.go:221-273 | the property bytes read back as the same properties if and only if a server takes them |
| PublishRead.ReadsUser | gmqtt/pkg/packets/properties.go:423-432 | any number of user properties reads back in order |
| PublishRead.UnpackLoop | gmqtt/pkg/packets/properties.go:333-452 | the loop over the properties computes what the specification reads |
| MessageCopy.StoredMessage.Copy | gmqtt/message.go:25-62 | the copy shares no memory with the original, has the same contents but for an empty correlation, which becomes absent, and is always measured exactly |
| MessageCopy.CopyUser | gmqtt/message.go:50-58 | the loop over the user properties makes new slices for every key and value |

## Left out

- Graphs.Graph.TopologicalSort: requires that every edge target is a vertex; otherwise the code raises a KeyError. The flat graph always satisfies it (`FlatIsJobDag`).
- FlattenExact.FlattenIsExact: stated for trees in which no job is handed over twice, where agreement of the operands is the exact condition; with shared jobs it is sufficient, and the exact condition is the one of `SharedIsExact`. A chain without items is refused by the source. What is attached, and what a group without members loses, is `FlattenIsWhole`.
- FlattenShared.SharedIsExact: no job is asked to precede itself, which the source's graph, documented as acyclic, does not provide for.
- JobDelay.DocumentedOrderIsExact: speaks of runs without manual completion and in which no finished job is taken back; what those may do is `StepIsExact`.
- JobDelay.DelayTree: jobs that already belong to different graphs, and direct execution under the test switch, are not modelled, nor deletion of old jobs.
- Row locks are the rule that a transaction commits only if no row it writes was changed since it began (`JobSnapshots`); the steps of `JobQueue` see the current table.
- JobStaleRuns.WakeupsSurvive: the other steps of these runs are automatic ones that see the current table; what outdated views do to them is `CommitIsExact`.
- Delayables that share a job with another graph, `split`, and the channels of the job runner.
- Limiter.PacketIDLimiter.MarkUsedLocked: the counter is unbounded; more than 65535 marks, which would wrap it, are not modelled.
- Inflight.WindowIsExact: fresh sessions of a connected client; a resumed session with a pending PUBREL marks only its PUBLISH elements as used.
- Inflight.Client.Finish: removing the message and releasing its id are one step; in between the id stays locked.
- The Redis message queue and `ReadInflight` of resumed sessions.
- Qos2.Receiver.PublishHandler: the retain and topic alias checks before the QoS part are one refusal flag; retained messages are not stored; a store that fails is not modelled.
- Delivery.Server.AddMsgToQueue: message expiry times and a queue that fails to add are not modelled.
- Sessions.Server.RegisterClient: stores do not fail, will messages and their timers are left out, and "one live connection per client id" is not claimed because the lock is released between check and use.
- Sessions.Server.HandleDisconnect: the client has a session, as every online client does (`EveryRunKeepsInv`); errors of the session store are left out.
- Sessions.Server.UnregisterClient: the session record is the in-memory store's own, so the MQTT 5 override changes it in place.
- PackageCopy.Copier.CopyRoot: the metadata maps `time` and `name` of a package.json are part of the payload that is copied as a whole; file system errors are not modelled.
- Resp.Parse: memory is unlimited, so a huge announced length is an end of input, not an allocation failure; lengths below -1 and beyond 64 bits are Go panics and modelled as such.
- Resp.Reader.ReadResp: memory is unlimited, as in `Resp.Parse`.
- Resp.Reader.NextBulk: memory is unlimited, as in `Resp.Parse`.
- Spreadsheet.BuildSheet: takes the texts of the data frame; turning values into texts and the constant parts of the sheet are left out.
- Proxies.Control.RegisterProxy: the message checks before the port check and the port managers behind `Run` are one outcome each; plugins and metrics are left out.
- Proxies.ControlManager.Add: closing stands for all of `Replaced`, which also clears the run id of the old control; `ControlManager.Close` is left out.
- PublishSize.TotalBytes: properties that a PUBLISH never has are not encoded; QoS is 0, 1 or 2.
- PublishRead.PublishRoundTrip: which bytes are valid UTF-8 and valid topic names is a parameter; the errors are not told apart; lengths, identifiers and intervals fit the fields of the packet.
- Sockets, TLS, HTTP, gRPC, websocket, hooks, plugins, logging, statistics, configuration, Odoo views and wizards, WebDAV permission tables: input and output or plumbing without deep invariants.
