# Watchdog: a verified model of the polling engine and its monitors

The watchdog polls the nodes of a sharded blockchain over RPC and raises alerts. This project
models its polling engine and the monitors on top of it, and proves what they guarantee over every
schedule and every run.

| file | models |
|---|---|
| `Polling.dfy` | addresses, replies, headers, Go durations and unsigned arithmetic, facts about bags |
| `WorkerPool.dfy` | the engine of `update`, `manager` and `worker` as a labelled transition system |
| `WorkerPoolInvariant.dfy` | its invariant and the preservation by every label |
| `WorkerPoolTheorems.dfy` | channel life cycle, barrier, WaitGroup counter, deadlock freedom, termination |
| `WorkerPoolOutcomes.dfy` | replies carry what their own request returned |
| `BeaconPool.dfy` | `getBeaconHeaders`: the pool whose last worker closes the data channel |
| `BeaconSync.dfy` | `beaconSyncMonitor` and `checkBeaconSync` |
| `HeaderSummary.dfy` | `blockHeaderSummary` |
| `ConsensusMonitor.dfy` | `consensusMonitor`'s stall detector |
| `ShardHeight.dfy` | `checkShardHeight` and `checkSync` |
| `CrossLinkMonitor.dfy` | `crossLinkMonitor`'s running maximum |
| `LeaderQuery.dfy` | the leader phases of `cxMonitor` and `crossLinkMonitor` |
| `ManagerRound.dfy` | what `manager` does with a round's replies; epochs |
| `Snapshot.dfy` | reports that shorten signatures in place, downloads, and the lock |
| `NodeList.dfy` | duplicate detection and `shardMap` |
| `EndToEnd.dfy` | the engine joined to the manager, the node list and the two-phase monitors; the beacon pool joined to its check |
| `TwoPhase.dfy` | the order in which `cxMonitor` and `crossLinkMonitor` drive their two lanes |
| `ConsensusRuns.dfy` | `consensusMonitor` joined to its engine |
| `SnapshotRuns.dfy` | the engine, the header manager and the lock, joined over whole runs |

`dafny verify dfyconfig.toml` checks the whole project.

How the source is rendered:

- **Concurrency.** Every atomic action of a goroutine is one label, and a run is any sequence of
  enabled labels: any number of RPC lanes, workers, nodes and rounds. A blocking operation is a
  guard, a Go panic is a state with a fault. A worker reads `channels[j.rpc]` and sends on it in two
  steps. `jobs <-` and `Add(1)` are two steps in the source's order. A round queries a set of
  targets: all of `shardMap` for `manager` and `consensusMonitor`, a part of it for the leader
  phases. A manager ranges over its replies to the end, or breaks out of the loop on a successful
  reply, as `crossLinkMonitor` does in its second phase; "all received" is claimed for the former
  only. The invariant and all safety theorems hold for every monitor that uses `worker`.
- **Who may move.** `manager` and `consensusMonitor` replace a channel only after taking the lock, so
  `StallsExactly` and `Settles` ask whether it is free. `cxMonitor` and `crossLinkMonitor` drive two
  lanes from one goroutine, in an order of their own and without the lock; `TwoPhase.dfy` treats
  their progress. (`crossLinkMonitor` takes the lock after its round, before it waits for its ticker.)
- **The gap before `Add(1)`.** Because `jobs <-` comes first, a worker can call `Done` before the
  manager calls `Add`, and the WaitGroup panics. `GapPanics` builds such a run for every engine that
  has a node, a lane and a worker; `DonePanicsExactly` says when it happens; `PairedRunsNeverPanic`
  shows that nothing panics if the two are one step. All other theorems hold with the gap in place.
- **State.** Fields that methods update are class fields, slices are a backing array and a length,
  map iteration picks any remaining key. The lock `inUse` is a field; an operation that takes it
  requires it to be free, and a panic between `Lock` and `Unlock` leaves it taken.
- **Results that are not what one would wish.** `consensusMonitor`'s `Down` is the round's failures
  only under the condition of `ConsensusDownExact`. A report on a short signature and a CSV download
  of a shard that the kept summary lacks panic with the lock taken, which `LockIsFreeExactly`
  delimits; the engine then stalls, exactly as `EngineStallsExactly` says. The recorded height of a
  shard can fall, exactly as `HeightFallsExactly` says. Each has an input that shows it.
- **Foreign code.** An HTTP request returns a body or an error; JSON decoding is a total function
  parameter; an alert is a returned value. Times are integer nanoseconds, `time.Time.Sub` saturates,
  heights are unsigned 64-bit numbers.
- **Assumptions.** Every request returns, map accesses are atomic, the clock is monotone where a
  lemma says so, thresholds are not negative. A panic in an HTTP handler is recovered by the server.
  Progress needs a worker;
  `EmptyPoolCompletesNothing` and `EmptyPoolNeverEnds` show that it does.

## Model

| member | source | states |
|---|---|---|
| WorkerPoolInvariant.StepKeepsInv | blockchain-watchdog/reporting-server.go:429-542 | every action of every goroutine keeps the engine invariant; at its heart, the addresses queued, in flight and replied on a lane are exactly the targets issued so far, each once |
| WorkerPoolInvariant.RunKeepsInv | blockchain-watchdog/reporting-server.go:429-571 | every state of every run satisfies that invariant |
| WorkerPoolTheorems.ChannelLifeCycle | blockchain-watchdog/reporting-server.go:429-439 | in every reachable state nobody has sent on a closed channel or closed one twice, a channel is closed exactly from its manager's close on, and every reply sits in the channel of its own RPC and round |
| WorkerPoolTheorems.BarrierExact | blockchain-watchdog/reporting-server.go:472-484 | once `Wait` has returned the channel holds exactly one reply per target, and so did the channel of every former round; all replies were received unless the manager broke out of its loop |
| WorkerPoolTheorems.RoundsAskTheirTargets | blockchain-watchdog/reporting-server.go:471-476 | over any run, round k of a lane asks exactly the targets that its k-th tick named |
| WorkerPoolTheorems.DrainingLanesDrain | blockchain-watchdog/reporting-server.go:486-489 | over any run, a lane whose loop is never left early has received every reply of every round it has ended |
| WorkerPoolTheorems.BreaksOnSuccess | blockchain-watchdog/crosslink-monitor.go:79-110 | in every run, a loop that was left early had read a successful reply last |
| WorkerPoolTheorems.CounterIsBalance | blockchain-watchdog/reporting-server.go:436-475 | over any run the WaitGroup counter of a lane is the number of `Add(1)` calls of its manager minus the number of `Done` calls of workers on its jobs |
| WorkerPoolTheorems.CounterExact | blockchain-watchdog/reporting-server.go:436-437 | the WaitGroup counter is adds minus dones, at least -1, and -1 only between `jobs <-` and `Add(1)`, where it panics |
| WorkerPoolTheorems.DonePanicsExactly | blockchain-watchdog/reporting-server.go:474-475 | a `Done` panics if and only if its manager stands in that gap and the caller's job is the lane's only unfinished one |
| WorkerPoolTheorems.OnlyDonePanics | blockchain-watchdog/reporting-server.go:429-540 | no other action of any goroutine ever panics |
| WorkerPoolTheorems.GapPanics | blockchain-watchdog/reporting-server.go:472-476 | for every engine with a node, a lane and a worker there is a run that panics in the gap |
| WorkerPoolTheorems.PairedRunsNeverPanic | blockchain-watchdog/reporting-server.go:472-484 | runs in which each send is followed at once by its add never panic, and no counter is ever negative |
| WorkerPoolTheorems.CapacitySuffices | blockchain-watchdog/reporting-server.go:554-558 | per RPC, queued plus in-flight plus replied never exceeds `len(shardMap)`, so a worker with a reply can always send it |
| WorkerPoolTheorems.Progress | blockchain-watchdog/reporting-server.go:432-484 | while some round has not been read to its end, some goroutine can move without a tick and without the replacement of a channel, whatever the state of the lock |
| WorkerPoolTheorems.StallsExactly | blockchain-watchdog/reporting-server.go:471-540 | in every reachable state with an unfinished round nobody can move if and only if the lock is taken and every manager stands before the replacement of its channel or waits for its ticker; otherwise there is a move that lowers the measure |
| WorkerPoolTheorems.StepPays | blockchain-watchdog/reporting-server.go:471-540 | every action but a tick lowers the measure, and a tick raises it by no more than its round costs |
| WorkerPoolTheorems.RoundsAreFinite | blockchain-watchdog/reporting-server.go:471-540 | a run with t ticks has at most t times a fixed budget of steps, the budget depending only on `len(shardMap)` |
| WorkerPoolTheorems.Settles | blockchain-watchdog/reporting-server.go:471-540 | from every state that has not panicked all rounds under way can be read to their end without a tick, a panic or the lock, and if the lock is free all channels can be replaced as well |
| WorkerPoolTheorems.EmptyPoolCompletesNothing | blockchain-watchdog/reporting-server.go:569-571 | with no worker no round that has a target is ever completed |
| WorkerPoolOutcomes.RepliesAreGenuine | blockchain-watchdog/reporting-server.go:432-437 | in every run each reply in each channel carries exactly the outcome that some worker got while it was requesting that address for that RPC and round |
| WorkerPoolOutcomes.OneOutcomeEach | blockchain-watchdog/reporting-server.go:432-437 | in a run no request is made twice, so an address has one outcome per RPC and round |
| EndToEnd.HeardFromEachOnce | blockchain-watchdog/reporting-server.go:472-489 | in every run each round whose loop has ended got one reply per target, from nobody else, and a loop that was not left early read them all |
| EndToEnd.DrainingLanesComplete | blockchain-watchdog/reporting-server.go:486-489 | every ended round of a lane whose loop is never left early was read to the end |
| EndToEnd.RoundIsConserved | blockchain-watchdog/reporting-server.go:486-524 | after every completed round, among the addresses stored in the records of `Nodes` and the entries of `Down`, each target occurs exactly once and nobody else does, for every decoder that stores the replier's address |
| EndToEnd.RoundsAreNotEmpty | blockchain-watchdog/reporting-server.go:547-558 | with an accepted configuration a full round yields `len(shardMap)` replies, more than none, so it replaces all earlier data |
| EndToEnd.PhaseTwoIsLegal | blockchain-watchdog/cx-monitor.go:51-76 | the leaders found in a completed first phase are distinct nodes, no more than the reply capacity, and a legal second round |
| EndToEnd.CrossLinkPhaseTwoIsLegal | blockchain-watchdog/crosslink-monitor.go:56-77 | the same for the shard-0 leaders that `crossLinkMonitor` asks |
| EndToEnd.BreakLosesNothing | blockchain-watchdog/crosslink-monitor.go:79-110 | in every run, the links taken from the replies read before the break are those that the whole round would have given |
| EndToEnd.SecondLooks | blockchain-watchdog/beacon-monitor.go:16-31 | however `getBeaconHeaders` was scheduled, a second look is launched for exactly the nodes whose own request returned a height behind by at least the threshold, with that height; all are of shards other than 0 |
| TwoPhase.RunKeepsOrder | blockchain-watchdog/cx-monitor.go:43-117 | over any run in the monitor's own order, lane 1 is at work only after lane 0 was read and before it is replaced, and every first phase has exactly one second phase, done or due |
| TwoPhase.TicksAreFinite | blockchain-watchdog/cx-monitor.go:43-117 | a run with t ticks of the monitor has at most 2t rounds' worth of steps |
| TwoPhase.NeverStuck | blockchain-watchdog/crosslink-monitor.go:46-116 | until both channels are replaced, an action in the monitor's own order is possible, and the one that starts the second phase asks exactly the leaders found |
| ConsensusRuns.RoundHeaders | blockchain-watchdog/consensus-monitor.go:50-66 | in every run the headers collected in a round are exactly the decodings of the bodies that the requests of that round returned |
| ConsensusRuns.TickSees | blockchain-watchdog/consensus-monitor.go:73-80 | in every run a tick summarises a shard if and only if a request of its round returned a header of it; the height is the greatest returned, and the newest block is one returned at that height |
| ConsensusRuns.AlertMeansNobodyMoved | blockchain-watchdog/consensus-monitor.go:84-116 | a tick alerts on a shard if and only if some request of its round returned the shard, none returned more than the last tick that summarised it without alerting, and the newest block of that tick is now too old |
| SnapshotRuns.SnapshotIsLastRound | blockchain-watchdog/reporting-server.go:471-540 | over every run and every history of harmless events, the snapshot after p publications is that of round p - 1, perhaps shortened |
| SnapshotRuns.EngineStallsExactly | blockchain-watchdog/reporting-server.go:525-540 | with a round unfinished, the engine and the lock together have no move left if and only if every manager is parked and some earlier report or download was harmful |
| BeaconPool.StepKeepsInv | blockchain-watchdog/beacon-monitor.go:55-105 | every action keeps each target in exactly one of: to hand out, held by one worker, in the result; and keeps the shutdown protocol |
| BeaconPool.ClosedOnceByTheLast | blockchain-watchdog/beacon-monitor.go:70-85 | no schedule panics, `data` is closed at most once and only after every worker has left its loop |
| BeaconPool.ResultIsComplete | blockchain-watchdog/beacon-monitor.go:91-105 | when the loop over `data` ends, the keys are exactly the addresses of shards other than 0, a value is a body if and only if the request to that address returned that body and nil if and only if it failed, `data` was closed once, and the failed count is the number of nils |
| BeaconPool.Progress | blockchain-watchdog/beacon-monitor.go:55-102 | until the main loop has ended some goroutine can move |
| BeaconPool.SchedulesAreFinite | blockchain-watchdog/beacon-monitor.go:55-102 | the length of every schedule is bounded in terms of the targets and the pool size |
| BeaconPool.StuckMeansFinished | blockchain-watchdog/beacon-monitor.go:55-102 | a schedule that cannot be continued has ended the main loop |
| BeaconPool.EmptyPoolNeverEnds | blockchain-watchdog/beacon-monitor.go:70-93 | with an empty pool the main loop never ends |
| BeaconPool.CountdownSinglesOutTheLast | blockchain-watchdog/beacon-monitor.go:70-77 | the 32-bit countdown is zero for no worker but the last if and only if the pool has at most 2^32 workers |
| BeaconSync.BeaconSyncMonitor | blockchain-watchdog/beacon-monitor.go:19-31 | a second look is launched for exactly the nodes that answered and are suspected, with the height they reported |
| BeaconSync.SuspectedMeansGap | blockchain-watchdog/beacon-monitor.go:21-21 | the first test, in whole numbers: behind, and by at least the threshold |
| BeaconSync.SecondLookExact | blockchain-watchdog/beacon-monitor.go:108-130 | for every launched look the difference is computed only where it cannot wrap, and it alerts on no progress, except when the node stood still with a gap of exactly the threshold |
| BeaconSync.WrapsExactlyAhead | blockchain-watchdog/beacon-monitor.go:130-130 | for arbitrary arguments the difference wraps if and only if the fresh height is above the beacon height but not above the first reading |
| BeaconSync.TwoStagesAlert | blockchain-watchdog/beacon-monitor.go:21-22 | both stages together in whole numbers: behind by at least the threshold at first, no progress, and behind by more than the threshold at last |
| HeaderSummary.DecimalRoundTrip | blockchain-watchdog/reporting-server.go:72-72 | parsing a formatted shard number gives the number back, so keys are distinct |
| HeaderSummary.DecimalIsCanonical | blockchain-watchdog/reporting-server.go:72-72 | a formatted number has decimal digits only and no leading zero |
| HeaderSummary.NameIsNumber | blockchain-watchdog/consensus-monitor.go:81-81 | the key of a shard denotes its number, and is "0" for shard 0 only |
| HeaderSummary.GroupCounts | blockchain-watchdog/reporting-server.go:67-71 | the groups partition the headers, each occurrence being in the group of its own shard only |
| HeaderSummary.GroupIsListing | blockchain-watchdog/reporting-server.go:67-71 | a group is the list of the headers of its shard in the order of the headers |
| HeaderSummary.SummarizeIsSummary | blockchain-watchdog/reporting-server.go:73-105 | unique heights and epochs are strictly descending with the same elements, start at the maximum and end at the minimum, and `latest-block` is the first header at the maximum |
| HeaderSummary.SummaryUnique | blockchain-watchdog/reporting-server.go:79-105 | that description fixes the summary, whatever sorting routine is used |
| HeaderSummary.BlockHeaderSummary | blockchain-watchdog/reporting-server.go:62-107 | one entry per shard that occurs, under its decimal name and computed from its own headers, and no other key, for any order of the groups |
| HeaderSummary.EntryIsSummary | blockchain-watchdog/reporting-server.go:92-105 | every entry of the result means the summary of the headers of its shard |
| HeaderSummary.LatestIsFirst | blockchain-watchdog/reporting-server.go:101-104 | in the whole header list, `latest-block` is the first header of the shard that has its greatest height, which is `block-max` |
| HeaderSummary.EntryLists | blockchain-watchdog/reporting-server.go:73-100 | the lists of an entry hold exactly the heights and epochs of the headers of its shard, in descending order |
| HeaderSummary.MappedUnique | blockchain-watchdog/reporting-server.go:67-71 | the headers determine the whole map, independently of the order of the groups |
| ConsensusMonitor.Monitor.VisitShard | blockchain-watchdog/consensus-monitor.go:84-117 | one shard's step: alert and keep the record, or record height and block time; both maps keep equal domains |
| ConsensusMonitor.RecordIsLast | blockchain-watchdog/consensus-monitor.go:84-116 | over any run a shard's record is the height and the block time, unix seconds as nanoseconds, of the last tick that summarised it without alerting, and there is one exactly if there was such a tick |
| ConsensusMonitor.AlertIsStall | blockchain-watchdog/consensus-monitor.go:84-116 | the detector without its state: a tick alerts on a shard if and only if it summarises it no higher than that tick and the newest block of that tick is too old |
| ConsensusMonitor.Monitor.VisitShards | blockchain-watchdog/consensus-monitor.go:78-118 | the whole loop, in any order, is the tick function, and alerts on exactly the stalled shards |
| ConsensusMonitor.Monitor.Round | blockchain-watchdog/consensus-monitor.go:73-118 | a tick on the headers that answered: summarise, then visit every shard |
| ConsensusMonitor.ShardsAreIndependent | blockchain-watchdog/consensus-monitor.go:37-118 | over any run a shard's entry depends on its own summaries only, and the maps hold exactly the shards summarised so far |
| ConsensusMonitor.AlertPersists | blockchain-watchdog/consensus-monitor.go:84-117 | after an alert, until a tick reports more than the recorded height, the record and the false status stay; the next tick that summarises the shard alerts if and only if it does not report more either, and otherwise records it and sets the status true |
| ConsensusMonitor.AlertsUntilRise | blockchain-watchdog/consensus-monitor.go:84-117 | over any run, all ticks after an alert that summarise the shard alert if and only if none of them reports more than the recorded height |
| ConsensusMonitor.StatusMeansLastTick | blockchain-watchdog/consensus-monitor.go:109-125 | the published status is false if and only if the last tick that summarised the shard alerted |
| ConsensusMonitor.OverdueIsAge | blockchain-watchdog/consensus-monitor.go:86-87 | the time test is the exact whole-second age of the block against the warning, for every warning a Go duration can exceed, and false for others |
| ConsensusMonitor.HeightFallsExactly | blockchain-watchdog/consensus-monitor.go:84-116 | a tick lowers a shard's recorded height if and only if it reports a lower one while the recorded block is not overdue; a record never disappears |
| ConsensusMonitor.MonotoneExactly | blockchain-watchdog/consensus-monitor.go:84-116 | over any run the recorded height never falls if and only if no tick reports a lower one in time |
| ConsensusMonitor.HeightCanFall | blockchain-watchdog/consensus-monitor.go:114-116 | a run of two ticks in which it falls |
| ConsensusMonitor.DetectionExact | blockchain-watchdog/consensus-monitor.go:84-117 | while the newest block keeps its height and unix time, a tick alerts if and only if it summarises the shard and the whole-second age of that block exceeds the warning |
| ConsensusMonitor.FirstAlertInTime | blockchain-watchdog/consensus-monitor.go:84-117 | with ticks at most `gap` apart the first alert comes at a block age, from the block's unix time, of at least warning + 1 seconds and less than `gap` later |
| ShardHeight.BuildIndex | blockchain-watchdog/consensus-monitor.go:135-146 | the nested map holds exactly the non-empty groups of headers by shard and height, in order |
| ShardHeight.AtIsListing | blockchain-watchdog/consensus-monitor.go:136-146 | a group of the index is the list of the headers of its shard and height in the order of the headers |
| ShardHeight.UniqueHeights | blockchain-watchdog/consensus-monitor.go:148-151 | the list holds every height once, although it goes through a signed integer |
| ShardHeight.MaxHeight | blockchain-watchdog/consensus-monitor.go:153-158 | the greatest of the listed heights |
| ShardHeight.CheckShardHeight | blockchain-watchdog/consensus-monitor.go:131-172 | exactly the headers more than the tolerance below their shard's maximum are sent, once per occurrence and with that maximum, without wrap-around and for any map order |
| ShardHeight.SentMeansLagging | blockchain-watchdog/consensus-monitor.go:159-166 | a header is sent if and only if it is among the nodes and some node of its shard is more than the tolerance above it; it is sent once per occurrence, with the greatest height of its shard |
| ShardHeight.ReportedMeansStuck | blockchain-watchdog/consensus-monitor.go:174-208 | both looks together: reported if and only if it lagged too far and then answered with no greater height |
| CrossLinkMonitor.RunningMaximum | blockchain-watchdog/crosslink-monitor.go:83-108 | a shard has an entry if and only if it was ever processed, and the entry is the first event of the whole run that reached the maximum, with its time |
| CrossLinkMonitor.AlertExactly | blockchain-watchdog/crosslink-monitor.go:84-101 | an event alerts if and only if its number is not above the maximum so far and that maximum was first seen at least `warning` whole seconds before |
| CrossLinkMonitor.NumbersOnlyRise | blockchain-watchdog/crosslink-monitor.go:86-107 | recorded numbers never fall, and an entry changes only when its number rises |
| CrossLinkMonitor.FirstAnswerIs | blockchain-watchdog/crosslink-monitor.go:80-109 | all links of the first reply that succeeded, and none if no reply did |
| CrossLinkMonitor.AlertLogIsListing | blockchain-watchdog/crosslink-monitor.go:83-101 | the alerts of a round are exactly the links, in order, that meet the condition of `AlertExactly` in the whole history, the earlier links of the round included |
| CrossLinkMonitor.Monitor.Round | blockchain-watchdog/crosslink-monitor.go:79-119 | exactly the links of the first successful reply are processed and published, none if there is no such reply; the table stays that of the whole history, and the alerts are those of the history |
| CrossLinkMonitor.Monitor.ProcessLinks | blockchain-watchdog/crosslink-monitor.go:83-108 | the loop over one reply's links extends the history by those links in order |
| LeaderQuery.LeadersAreListing | blockchain-watchdog/cx-monitor.go:55-62 | the leaders of a shard are the senders, in order, of the replies whose metadata calls them leader of that shard |
| LeaderQuery.GroupLeaders | blockchain-watchdog/cx-monitor.go:54-64 | the map holds exactly the shards with a leader, each with all its leaders in order |
| LeaderQuery.BeaconLeaders | blockchain-watchdog/crosslink-monitor.go:59-68 | exactly the repliers that call themselves leaders of shard 0, in order |
| LeaderQuery.LeadersDistinct | blockchain-watchdog/crosslink-monitor.go:59-68 | with one reply per node, each address is a leader of a shard at most once |
| LeaderQuery.PhaseTwoTargets | blockchain-watchdog/cx-monitor.go:68-74 | the nested loops ask every leader once and nobody else, for any map order |
| LeaderQuery.BeaconLeadersAskedOnce | blockchain-watchdog/crosslink-monitor.go:70-75 | with one reply per node, the shard-0 leaders asked are distinct and all there are |
| LeaderQuery.PhaseTwoFits | blockchain-watchdog/cx-monitor.go:68-76 | the second phase asks only nodes that answered the first, and no more of them |
| LeaderQuery.FindShard | blockchain-watchdog/cx-monitor.go:83-91 | the nested search yields the one shard that the address reported, or 0 for an address that leads none, although `break` leaves only the inner loop |
| LeaderQuery.ReadPools | blockchain-watchdog/cx-monitor.go:78-109 | sizes are grouped by the shard each sender reported, in order, and exactly the sizes above the limit alert |
| LeaderQuery.ShardIsReported | blockchain-watchdog/cx-monitor.go:83-91 | the shard of a sender is the one its phase-one reply named as leader, or 0 if it named none |
| LeaderQuery.PoolIsListing | blockchain-watchdog/cx-monitor.go:79-92 | the list of a shard holds, in order, the sizes answered by the senders of that shard |
| LeaderQuery.AlertsAreListing | blockchain-watchdog/cx-monitor.go:93-107 | the alerts are, in order, the answered sizes above the limit with the shards of their senders |
| ManagerRound.Append | blockchain-watchdog/reporting-server.go:496-497 | appending leaves the old slice's elements alone and writes in place exactly while there is capacity |
| ManagerRound.Store.Collect | blockchain-watchdog/reporting-server.go:486-501 | the loop leaves one record per answer in `Nodes` and one entry per failure in `Down`, in order and in new arrays; with no reply at all it leaves the old ones |
| ManagerRound.Store.Publish | blockchain-watchdog/reporting-server.go:359-369 | with the lock free, the snapshot gets the same contents in arrays of its own |
| ManagerRound.Store.Round | blockchain-watchdog/reporting-server.go:477-540 | the snapshot is that of one round, shares no array with the working container, and no array of an earlier snapshot changes |
| ManagerRound.Store.Rounds | blockchain-watchdog/reporting-server.go:471-540 | after any number of ticks the snapshot is that of the last round that had a reply, with the time of the last tick |
| ManagerRound.AfterLastRound | blockchain-watchdog/reporting-server.go:486-494 | the containers after some rounds are those of the last round that had a reply |
| ManagerRound.AfterNoReply | blockchain-watchdog/reporting-server.go:486-494 | rounds without any reply leave the containers as they were |
| ManagerRound.NodesAreListing | blockchain-watchdog/reporting-server.go:623-644 | `Nodes` holds, in order, the record made from address and body of every answer |
| ManagerRound.DownIsListing | blockchain-watchdog/reporting-server.go:495-497 | `Down` holds, in order, address, error, request and shard of every failure, with shard 0 for an address that is not in `shardMap` |
| ManagerRound.RepliesPartition | blockchain-watchdog/reporting-server.go:495-500 | every occurrence of a reply is an answer or a failure, not both |
| ManagerRound.ContainersKeepAddresses | blockchain-watchdog/reporting-server.go:623-644 | the addresses stored in `Nodes` are those that answered and those in `Down` those that failed, in order |
| ManagerRound.AddressesPartition | blockchain-watchdog/reporting-server.go:495-500 | with one reply per address, every address is stored in exactly one of `Nodes` and `Down`, once |
| ManagerRound.CollectForConsensus | blockchain-watchdog/consensus-monitor.go:50-66 | `Nodes` is complete, but every failure starts `Down` again from the manager's list of the moment |
| ManagerRound.DownEndsWithLastFailure | blockchain-watchdog/consensus-monitor.go:52-57 | only the last failure survives, behind the manager's list, while the round's failures end with it |
| ManagerRound.ConsensusDownExact | blockchain-watchdog/consensus-monitor.go:50-66 | `Down` lists the round's failures if and only if nothing failed or, at the last failure, the manager's list is that of all earlier failures |
| ManagerRound.LoggedDownCount | blockchain-watchdog/consensus-monitor.go:119-119 | the logged number of silent machines is right if and only if nothing failed or, at the last failure, the manager's list is as long as there were earlier failures |
| ManagerRound.TwoFailuresLogOne | blockchain-watchdog/consensus-monitor.go:53-57 | a round in which it is wrong: two failures and an empty list of the manager give one entry |
| ManagerRound.BeaconEpochIs | blockchain-watchdog/reporting-server.go:527-534 | the epoch looked at is e if and only if the first header of shard 0 has epoch e |
| ManagerRound.EpochTracker.Inspect | blockchain-watchdog/reporting-server.go:526-536 | the loop refreshes if and only if the first shard-0 header has a greater epoch than the one kept, and then keeps that; otherwise it keeps the old one |
| ManagerRound.EpochIsRunningMax | blockchain-watchdog/reporting-server.go:470-535 | over any run `prevEpoch` is the running maximum, from 0, of the epochs of the first shard-0 headers of the rounds |
| ManagerRound.RefreshIsNewMaximum | blockchain-watchdog/reporting-server.go:528-532 | a round refreshes if and only if its first shard-0 header has an epoch above 0 and above those of all earlier rounds |
| ManagerRound.RefreshesBounded | blockchain-watchdog/reporting-server.go:529-532 | there are never more refreshes than the epoch number reached |
| Snapshot.ShortenKeepsEnds | blockchain-watchdog/reporting-server.go:119-121 | a shortened signature is the first and the last five characters with an ellipsis between; an empty one stays empty |
| Snapshot.ShortenInPlace | blockchain-watchdog/reporting-server.go:118-123 | the headers are rewritten up to the first signature of one to four characters, where the slicing panics, in no other field, and the rest is untouched |
| Snapshot.Reports.SummarizeSnapshot | blockchain-watchdog/reporting-server.go:656-658 | a report succeeds if and only if every signature is empty or has at least five characters, summarises the shortened headers, and leaves the working container alone; if it fails, the lock stays taken |
| Snapshot.Reports.PublishHeaders | blockchain-watchdog/reporting-server.go:525-538 | the end of a round of the header manager is a publication of its working container |
| Snapshot.Reports.DownloadHeaders | blockchain-watchdog/reporting-server.go:280-298 | a download yields the records of the shard if and only if the kept summary has it; otherwise the lock stays taken |
| Snapshot.LockIsHeldForEver | blockchain-watchdog/reporting-server.go:675-716 | after a handler that panicked, no event of any later history changes anything |
| Snapshot.LockIsFreeExactly | blockchain-watchdog/reporting-server.go:259-298 | over any history of publications, reports, kept summaries and downloads the lock is free if and only if every report was due on signatures that can be shortened and every download was of a shard in the summary last kept; then what is stored is what was last published, perhaps shortened, and last kept |
| Snapshot.ShortSignatureLocks | blockchain-watchdog/reporting-server.go:118-123 | such a history: a header with a signature of one to four characters, a report, and a publication that never happens |
| Snapshot.EarlyDownloadLocks | blockchain-watchdog/reporting-server.go:280-281 | another, whatever the signatures: a download before the first report was rendered, and a publication that never happens |
| Snapshot.ReportsAreIdempotent | blockchain-watchdog/reporting-server.go:118-123 | any number of reports leaves the stored headers as the first one left them |
| Snapshot.ReportsAgree | blockchain-watchdog/reporting-server.go:712-712 | any two reports between rounds give the same header summary |
| Snapshot.ShorteningKeepsSummary | blockchain-watchdog/reporting-server.go:152-152 | shortening does not change what a shard's summary says about heights and epochs |
| NodeList.DetectDuplicates | blockchain-watchdog/root.go:192-203 | the node list has exactly the members; the report is made of pairs of lines on one member, the second naming the shard where it was first found, and every occurrence of a member in a shard is either that first one or the first line of exactly one pair, for any map order |
| NodeList.Validate | blockchain-watchdog/root.go:192-210 | the configuration is accepted if and only if it has a member and no member occurs twice in all lists together |
| NodeList.NoRepetitionMeans | blockchain-watchdog/root.go:192-210 | in terms of the lists: nothing is repeated if and only if no list repeats a member and no two lists share one, and there is no member if and only if all lists are empty |
| NodeList.BuildShardMap | blockchain-watchdog/reporting-server.go:547-552 | every member is mapped to a shard that lists it, and nobody else is mapped |
| NodeList.AcceptedShardMap | blockchain-watchdog/reporting-server.go:547-554 | for an accepted configuration the map is non-empty, maps m to k if and only if shard k lists m, and has as many entries as all lists together |
| NodeList.ShardMapUnique | blockchain-watchdog/reporting-server.go:548-552 | for an accepted configuration the map does not depend on the order of iteration |

## Left out

- `request`, PagerDuty, JSON and YAML decoding, reading the node files, logging: foreign calls, here parameters or returned values.
- `request` timeouts and requests that never return: termination and progress assume that each request returns.
- Data races under Go's memory model, including the unlocked accesses of `consensusMonitor` to the manager's container: actions are atomic here. An append into spare capacity of the manager's `Down` array is covered by the contract of `Append`, not as an interleaving.
- The other users of `inUse`: the metadata container and its guarded download, `m.consensusProgress`, `m.LastCrossLinks`, the second locked part of `networkSnapshot`. Nothing in them panics with the lock taken; a lock that is never released blocks them in the same way.
- `m.consensusProgress`, which aliases a live map, and the second locked part of `networkSnapshot`: the two do not form one atomic snapshot, and nothing is claimed about them.
- Rounding of `Duration.Seconds()` in floating point: whole seconds are exact here.
- Pools of more than 2^32 workers in `getBeaconHeaders`: `CountdownSinglesOutTheLast` shows that the countdown then no longer singles out the last worker; the other theorems exclude them.
- The metadata part of `summaryMaps`, the leader lists of `networkSnapshot`, `renderReport` but for the summary it keeps, the rest of `produceCSV` and of the HTTP handlers: presentation of data that is modelled elsewhere.
- The per-shard list of beacon heights that `beaconSyncMonitor` only logs.
- `p2pMonitor`, `calcConnectivity`: short floating-point averages.
- `sanityCheck`, the shard digit taken from a file name, the command line and the daemon: independent checks and plumbing.
- The container pairs of the two RPCs, which the source writes out twice, are one generic class here; the epoch check of the block-header lane is the separate class `EpochTracker`, because the two share no state.
