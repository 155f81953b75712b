# Vectron coordination, in Dafny

Vectron is a distributed vector database: a placement driver replicated by raft places the shards of collections on
workers, gateways route requests to workers by cached routing tables, and workers search their shards. This project
models the parts whose correctness spans several functions or whole runs, and proves it.

| component | modules |
|---|---|
| The driver's replicated state machine | `FsmTypes`, `Placement`, `PlacementLoops`, `KeySpace`, `FsmModel` (the meaning of each command), `CommandEffects` (its effect, field by field), `FsmInvariant` (what it keeps), `Fsm` (the state updated in place), `History`, `ShardLives` and `CommandRuns` (whole runs of the log), `Scenario` (particular runs, for counterexamples) |
| Routing, assignments, fencing | `Routing`, `DriverLookup`, `Assignments`, `Fencing` (epochs), `RouteNames` (whose route a request gets), `UpsertFencing` |
| Repair and rebalancing | `Reconcile`, `Reconciler`, `MovePlan` (one move), `Rebalance` (the protocol over every interleaving), `MoveSteps` (when each phase is left), `MoveSafety` (its theorems), `RebalanceManager` |
| Merging search results | `Ranking`, `Aggregator`, `AggregatorLoops`, `TopK`, `SearchMerge` |
| Batching, single flight, rate limit | `SearchBatcher`, `BatchAnswers` (what callers are told), `SingleFlight`, `UpsertBatching`, `RateLimit` |

`Prelude` holds a few facts about sequences and sets. `dafny verify dfyconfig.toml` checks everything.

How the model reads the code:

- A run of the log is any sequence of commands. The clock, the order in which a map is ranged over and the rounded
  floating-point quotient are inputs of each step, so the theorems hold for all of them; the replication factor is any
  constant from one to five.
- A concurrent protocol is a state machine over its atomic steps, and its theorems are about every interleaving. A
  proposal to raft is applied, silently refused by the state machine, or fails; a failed one that is committed later is
  just another command of the log.
- Where the code keeps a property only under a condition, the condition is proved to be exact and an input outside it
  is given: `MoveShard` does not look for duplicates (`MoveKeepsDistinctIff`, `MoveMayDuplicate`); rack keys joined with
  slashes can collide (`RacksMaximalIff`, `SlashInZoneNameLosesARack`), and so can the keys of cached routes, joined with
  bars (`CachedRoutesAreRightIff`, `BarsCollide`, and for upserts without a routing table `UpsertsAreRightIff`,
  `UpsertBarsCollide`); an upsert batch is admitted under its newest route (`AdmittedBatchesAreFenced`,
  `OlderPointAdmitted`); a creation counts the eligible workers, then reads the clock again and sorts those it still
  finds (`CreatedReplicasIff`, `RunPopulatedIff`, `CreationMayPlaceNothing`); stale heap items can cost an entry its
  place (`ExactIffNoLoss`, `ImprovementLosesEntry`); a batch of one search is answered without the lease check
  (`BatchOfOneSkipsLease`).
- Progress reports are taken at their word on the epoch, so `Rebalance` assumes what a worker that learned its epoch
  from the driver satisfies: it never reports an epoch newer than the driver's (`Rebalance.Honest`).

## Model

| member | source | states |
|---|---|---|
| `Placement.SelectionFacts` | placementdriver/internal/fsm/fsm.go:814-902 | selection returns min(RF, n) distinct candidates, spans min(RF, zones present) zones, and racks short of the possible only by the zone picks spent on a rack key already used |
| `Placement.ZonesAreMaximal` | placementdriver/internal/fsm/fsm.go:827-845 | no duplicate-free choice of as many candidates spans more zones |
| `Placement.RacksMaximalIff` | placementdriver/internal/fsm/fsm.go:847-878 | the choice also spans as many racks as any other if and only if the zone pass did not spend two picks on one rack key while a rack was left out |
| `Placement.PlacementIsOptimal` | placementdriver/internal/fsm/fsm.go:814-902 | where a rack key determines the zone key, the choice maximises zones and racks at once over all choices of its size |
| `Placement.SharedRackKeyLosesARack` | placementdriver/internal/fsm/fsm.go:839-843 | two zones with one rack key make the choice miss a rack |
| `Placement.SlashInZoneNameLosesARack` | placementdriver/internal/fsm/fsm.go:872-875 | such keys exist: keys are joined with slashes, and names may contain slashes |
| `Placement.SlashFreeNamesSuffice` | placementdriver/internal/fsm/fsm.go:872-875 | slash-free region and zone names make the rack key determine the zone key |
| `Placement.KeysStandForNames` | placementdriver/internal/fsm/fsm.go:832-875 | where names are free of slashes, a zone key stands for one region and zone, and a rack key for one region, zone and rack |
| `Placement.ZonePicksAreLeastLoaded` | placementdriver/internal/fsm/fsm.go:689-744 | fed by the load order, the first pass takes from each chosen zone its least loaded eligible worker |
| `PlacementLoops.WorkersSortedByLoad` | placementdriver/internal/fsm/fsm.go:689-744 | the loops, for every map order, give all eligible workers, each once, in ascending load |
| `PlacementLoops.SelectReplicasLoop` | placementdriver/internal/fsm/fsm.go:814-902 | the three loops compute the three-pass selection |
| `KeySpace.SizeBounds` | placementdriver/internal/fsm/fsm.go:626-630 | how far a quotient rounded by at most 2^-53 relative error and truncated can be from the exact range size, for up to 2^52 shards |
| `KeySpace.BoundsDoNotWrap` | placementdriver/internal/fsm/fsm.go:641-645 | no start or end key that is kept wraps around 64 bits |
| `KeySpace.RangesPartition` | placementdriver/internal/fsm/fsm.go:636-661 | every 64-bit key lies in the range of exactly one of the n shards, namely its slot |
| `KeySpace.RangesAreFair` | placementdriver/internal/fsm/fsm.go:636-661 | the ranges follow one another from the first key to the last, each but the last a fair share up to the rounding |
| `Fsm.PlacementFsm.Update` | placementdriver/internal/fsm/fsm.go:323-466 | applying any of the fourteen commands in place does what the command means, replies as it says, and keeps the invariant |
| `Fsm.PlacementFsm.RegisterWorkerAt` | placementdriver/internal/fsm/fsm.go:484-537 | re-registration by address pair, otherwise the next id |
| `Fsm.PlacementFsm.RegisterRerankerAt` | placementdriver/internal/fsm/fsm.go:540-587 | the same for rerankers, by address |
| `Fsm.PlacementFsm.CreateCollectionWith` | placementdriver/internal/fsm/fsm.go:589-668 | refusals, shard ids, key ranges, replicas and epochs of a new collection, for every map order and any two clock readings, one to count eligible workers and one to sort them |
| `Fsm.PlacementFsm.SetLeader` | placementdriver/internal/fsm/fsm.go:979-993 | a positive leader marks the shard bootstrapped and clears its bootstrap members |
| `Fsm.PlacementFsm.AddReplica` | placementdriver/internal/fsm/fsm.go:1012-1052 | adds a healthy worker at the end, within five replicas, bumping both epochs; already a replica is accepted without change |
| `Fsm.PlacementFsm.RemoveReplica` | placementdriver/internal/fsm/fsm.go:1055-1094 | removes a replica unless that would go below the floor, bumping both epochs |
| `Fsm.PlacementFsm.MoveReplica` | placementdriver/internal/fsm/fsm.go:1097-1146 | replaces the source in place, without looking whether the target is a replica |
| `Fsm.PlacementFsm.UnregisterWorker` | placementdriver/internal/fsm/fsm.go:959-977 | refused while any shard has a replica on the worker |
| `Fsm.PlacementFsm.BumpAssignmentsEpoch` | placementdriver/internal/fsm/fsm.go:1148-1153 | the global epoch moves to the next value of a 64-bit counter that skips zero: it is never zero, and it is greater than before below the top |
| `CommandEffects.HeartbeatEffect` | placementdriver/internal/fsm/fsm.go:906-930 | a heartbeat records the clock, the load and the running shards sent, makes a joining or unknown worker ready, and changes nothing else; of an unregistered worker it changes nothing |
| `CommandEffects.WorkerStateEffect` | placementdriver/internal/fsm/fsm.go:946-957 | the state sent is set, and nothing else; refused for an unregistered worker |
| `CommandEffects.RemoveWorkerEffect` | placementdriver/internal/fsm/fsm.go:959-977 | a worker goes if and only if it is registered and no shard lists it, and nothing else changes |
| `CommandEffects.KnownWorkerEffect` | placementdriver/internal/fsm/fsm.go:488-499 | re-registration under a worker's two addresses is answered with its id and changes its heartbeat and, if one is sent, its role |
| `CommandEffects.NewWorkerEffect` | placementdriver/internal/fsm/fsm.go:501-537 | other registrations are answered with the next id, for a joining worker with what was sent of addresses, role and location |
| `CommandEffects.RerankerEffect` | placementdriver/internal/fsm/fsm.go:540-587 | the same for rerankers, known by one address |
| `CommandEffects.RerankerHeartbeatEffect` | placementdriver/internal/fsm/fsm.go:932-943 | a reranker's heartbeat records the clock, and changes nothing else |
| `CommandEffects.PeerEffect` | placementdriver/internal/fsm/fsm.go:474-482 | a peer is put under its id, and nothing else changes |
| `CommandEffects.CreateAcceptedIff` | placementdriver/internal/fsm/fsm.go:593-612 | a creation is accepted if and only if the name is free and some worker is ready, heard from within thirty seconds and not search-only |
| `CommandEffects.CreateEffect` | placementdriver/internal/fsm/fsm.go:621-668 | the new collection's shards get consecutive ids and consecutive ranges, even up to the rounding, all on the same replicas: workers that can host, over as many zones as any choice of as many, the least loaded first |
| `CommandEffects.DeleteEffect` | placementdriver/internal/fsm/fsm.go:670-687 | a collection that exists is deleted, with a new global epoch, and nothing else |
| `CommandEffects.LeaderEffect` | placementdriver/internal/fsm/fsm.go:979-993 | the leader sent is recorded; a real one makes the shard bootstrapped and empties its bootstrap members; no epoch changes |
| `CommandEffects.MetricsEffect` | placementdriver/internal/fsm/fsm.go:995-1010 | rate and latency become seven tenths of what they were and three tenths of what was sent; no epoch changes |
| `CommandEffects.AddEffect` | placementdriver/internal/fsm/fsm.go:1012-1052 | accepted if and only if the shard exists, the worker is healthy, and is a replica or one of at most five; a new replica comes last, with new epochs |
| `CommandEffects.RemoveEffect` | placementdriver/internal/fsm/fsm.go:1055-1094 | accepted if and only if the shard has the replica and more than RF; its first entry goes, the others keep their order, with new epochs |
| `CommandEffects.MoveShardEffect` | placementdriver/internal/fsm/fsm.go:1097-1146 | accepted if and only if the source is a replica and the target registered; the target takes the place of the source's first entry, with new epochs |
| `CommandRuns.HealthyIff` | placementdriver/internal/fsm/health.go:66-79 | at any point of any run a registered worker counts as healthy if and only if it is ready and its last heartbeat or registration is less than thirty seconds old |
| `CommandRuns.StateIsLastSet` | placementdriver/internal/fsm/fsm.go:906-957 | a worker's state is the one last set, joining at first, or ready once a heartbeat followed while that was joining or unknown |
| `CommandRuns.BeatingWorkersAreHealthy` | placementdriver/internal/fsm/fsm.go:906-930 | while a worker stays registered, its state is not set, it was not draining and its heartbeats come less than thirty seconds apart, it is healthy at every entry of the log |
| `CommandRuns.SameIdIff` | placementdriver/internal/fsm/fsm.go:488-537 | two registrations of a run are answered with the same id if and only if they name the same two addresses and the first one's worker is still registered |
| `CommandRuns.LeaderIsLastReported` | placementdriver/internal/fsm/fsm.go:979-993 | a shard's leader is the one last reported since it was created, or none |
| `CommandRuns.MetricsWithinReports` | placementdriver/internal/fsm/fsm.go:995-1010 | a shard's smoothed metrics never leave the range of what was reported for it |
| `ShardLives.BootstrappedIffLed` | placementdriver/internal/fsm/fsm.go:979-993 | a shard of a run is bootstrapped if and only if some state of its life so far has recorded a leader, and until then its bootstrap members are the replicas it was born with |
| `FsmInvariant.StepInv` | placementdriver/internal/fsm/fsm.go:474-1153 | every command, clock and map order keeps: key-space partition, shard ids unique across collections and below the counter, unique worker addresses, registered replicas, at most five of them |
| `FsmInvariant.StepDistinct` | placementdriver/internal/fsm/fsm.go:1097-1146 | replica lists stay duplicate-free under every command but a move onto a replica |
| `FsmInvariant.MoveKeepsDistinctIff` | placementdriver/internal/fsm/fsm.go:1128-1139 | an accepted move keeps the list duplicate-free if and only if its target was not a replica, or is its source |
| `Scenario.MoveMayDuplicate` | placementdriver/internal/fsm/fsm.go:1128-1139 | a run whose last command is an accepted move that leaves a worker listed twice |
| `FsmInvariant.CreatedShards` | placementdriver/internal/fsm/fsm.go:596-661 | what a new collection's shards are: partition, fresh ids, epoch one, bootstrap members equal to replicas, and as many distinct replicas as the smaller of RF and the workers still eligible when they are sorted, after they were counted |
| `FsmInvariant.CreatedReplicasIff` | placementdriver/internal/fsm/fsm.go:596-634 | the shards of an accepted creation have between one and RF distinct replicas if and only if some worker is still eligible when the workers are sorted |
| `FsmInvariant.StepPopulatedIff` | placementdriver/internal/fsm/fsm.go:596-634 | where every shard has a replica, a command leaves it so if and only if it is not a creation that counts eligible workers and then sorts none |
| `History.RunPopulatedIff` | placementdriver/internal/fsm/fsm.go:596-634 | every shard of every state of a run has a replica if and only if no step of the run is such a creation |
| `Scenario.CreationMayPlaceNothing` | placementdriver/internal/fsm/fsm.go:596-634 | a run whose last command is such a creation: it is accepted, and none of its shards has a replica |
| `History.ReachableStates` | placementdriver/internal/fsm/fsm.go:323-466 | the invariant holds in every reachable state, and a refused command changes nothing |
| `History.GuardedRunDistinct` | placementdriver/internal/fsm/fsm.go:1097-1146 | without moves onto replicas, no reachable state has a replica list with duplicates |
| `History.EpochNamesOneConfiguration` | placementdriver/internal/fsm/fsm.go:1133-1153 | a (shard, epoch) pair names one replica list and key range for all time, through deletion and re-creation of collections |
| `History.AssignmentsEpochNamesLayout` | placementdriver/internal/fsm/fsm.go:1148-1153 | states with equal global epochs have the same shards, key ranges and replica lists |
| `History.ReplicaFloor` | placementdriver/internal/fsm/fsm.go:1082-1093 | a shard that had c replicas never again has fewer than min(c, RF) while it exists |
| `Routing.LookupShard` | placementdriver/internal/server/server.go:433-443 | the driver's lookup, in any map order, finds a shard holding the hash unless none does |
| `Routing.PickLoop` | apigateway/cmd/apigateway/main.go:2579-2591 | the gateway's scan finds the first row holding the hash |
| `Routing.LookupsAgree` | apigateway/cmd/apigateway/main.go:2579-2591 | for a table built from any state of a run and a lookup by any driver replica, however stale either: the gateway's scan succeeds, and names the shard the driver finds if and only if that shard existed when the table was built |
| `Routing.LookupIsTotal` | placementdriver/internal/server/server.go:433-443 | in every reachable state, in any map order, the driver finds one and the same shard for every key of an existing collection, and the shard holds the key for as long as it exists |
| `Routing.AssignPoints` | apigateway/cmd/apigateway/main.go:3210-3305 | an upsert fails exactly when some point has no destination at its turn; otherwise each (address, shard) batch holds exactly its points, in request order, with the newest epoch and the latest lease of their routes |
| `Routing.NewestIsNewest` | apigateway/cmd/apigateway/main.go:3239-3256 | a batch's epoch and lease are no older than those of any of its points' routes, and its epoch is that of one of them |
| `Routing.UpsertPartitionsPoints` | apigateway/cmd/apigateway/main.go:3214-3257 | with every shard routed, each shard's batch is exactly the points whose hash it holds, in request order |
| `Routing.UpsertNeverFails` | apigateway/cmd/apigateway/main.go:3214-3257 | with every shard routed, every point has a destination |
| `Routing.NoOtherBatch` | apigateway/cmd/apigateway/main.go:3214-3257 | no batch names a shard outside the collection |
| `Routing.DestinationIs` | apigateway/cmd/apigateway/main.go:2579-2591 | a point goes to the leader, or failing one to the first replica, of the table's first row that holds its hash, under the row's epoch; with no such row, or one without a shard or an address, where its lookup says |
| `Routing.BoundPositions` | apigateway/cmd/apigateway/main.go:3233-3250 | a batch lists, in request order, the points at exactly the positions sent to its address and shard |
| `DriverLookup.GetWorker` | placementdriver/internal/server/server.go:416-497 | in every good state the driver answers with the shard that holds the hash, its epoch, and the address of its healthy leader or else of its first healthy replica, and refuses only for want of the collection, of replicas or of a healthy one |
| `DriverLookup.OneAnswer` | placementdriver/internal/server/server.go:456-497 | the state, the hash and the clock leave only one such answer |
| `Assignments.BuildAssignments` | placementdriver/internal/server/server.go:319-364 | an ordinary worker gets just the shards it is a replica of, each with the raft address of every replica, and the order to bootstrap exactly where it was a replica at the shard's birth and no leader has been recorded since, in every run; a search-only worker gets every shard alone; the missing-address branch is never taken |
| `Assignments.BuildMembers` | placementdriver/internal/server/server.go:335-344 | the address map of the replicas; a warning exactly when some replica is unregistered |
| `ShardLives.Birth` | placementdriver/internal/fsm/fsm.go:650-660 | every shard of a run has a first state, with its creation-time replicas at epoch one |
| `Assignments.BootstrapIff` | placementdriver/internal/server/server.go:346-356 | in every run a worker that is not search-only is ordered to bootstrap a shard if and only if it is one of the replicas of the shard's birth state and no state since has recorded a leader |
| `Assignments.BootstrapDiscipline` | placementdriver/internal/server/server.go:319-364 | a bootstrap order goes only to a creation-time replica, while no leader has ever been recorded |
| `Assignments.NoBootstrapAfterLeader` | placementdriver/internal/fsm/fsm.go:979-993 | once a leader was recorded the shard stays bootstrapped and is never ordered to bootstrap |
| `Assignments.SameEpochSameMembers` | placementdriver/internal/server/server.go:319-364 | any two ordinary assignments of a shard at one epoch carry the same initial members, the replicas of that epoch |
| `Fencing.ActionGood` | apigateway/cmd/apigateway/main.go:2809-2882 | driver steps, cache fills and drops, resolutions and worker assignments keep: every cached route was resolved for some request with its joined key, from a state of the driver, and every worker epoch is one the driver had |
| `Fencing.ReachableGood` | apigateway/cmd/apigateway/main.go:2475-2572 | so in every interleaving |
| `Fencing.AdmittedRequestsAreFenced` | worker/internal/grpc.go:393-408 | if a worker admits a request for a real shard by a cached route read at any time before, the driver state behind the route and the one behind the worker's epoch give the shard the same replicas, range and collection, whatever the staleness, whatever keys collide, and whatever became of the cache entry meanwhile |
| `Fencing.LeaseVerdicts` | worker/internal/grpc.go:393-408 | a request for one shard is admitted if and only if it names an epoch, the worker was given the shard at that very epoch, and its lease has no end or has not passed it; otherwise the error is that of the first of these that fails; requests for all shards are always admitted |
| `Fencing.AssignmentsTaken` | worker/internal/shard/manager.go:218-230 | an ordinary worker takes an assignment's epoch only if it is newer than the one it has, a search-only worker always |
| `Fencing.EpochsNeverGoBack` | worker/internal/shard/manager.go:218-230 | while it holds a shard an ordinary worker's epoch never goes back, in any interleaving, so a route once refused as stale is never admitted again |
| `RouteNames.CachedRoutesAreRightIff` | apigateway/cmd/apigateway/main.go:796-815 | every request admitted by a cached route, in every interleaving over collections with given names, the one asked for among them, is for a shard of the collection asked for that holds the id's hash, if and only if no name followed by a bar begins another |
| `RouteNames.BarFreeNamesAreApart` | apigateway/cmd/apigateway/main.go:796-815 | names without a bar meet that condition |
| `RouteNames.BarsCollide` | apigateway/cmd/apigateway/main.go:796-815 | a reachable system with two collections named a, and a, bar, b, both created: a request for the first is admitted for a shard of the second, by a route cached for another id |
| `UpsertFencing.AdmittedBatchesAreFenced` | apigateway/cmd/apigateway/main.go:3210-3305 | each point of an admitted upsert batch, routed by a table or by lookups made at any time before, goes to a shard whose range and collection are those its route was read with; the route is no newer than the batch's epoch, would have been admitted by itself if and only if it is as new, and then names the worker's configuration |
| `UpsertFencing.TablePointsAreRight` | apigateway/cmd/apigateway/main.go:3214-3257 | with a routing table, whose lookups are forced past the caches of resolved routes, every point is sent to a shard of the upsert's collection that holds its hash |
| `UpsertFencing.UpsertsAreRightIff` | apigateway/cmd/apigateway/main.go:2809-2824 | with or without a table, every point of every admitted batch goes to a shard of the upsert's collection that holds its hash, in every interleaving over collections with given names, if and only if no name followed by a bar begins another |
| `UpsertFencing.UpsertBarsCollide` | apigateway/cmd/apigateway/main.go:3258-3270 | a reachable system with collections a, and a, bar, b: an upsert into the first, without a table, has its point admitted for a shard of the second |
| `UpsertFencing.EpochsMustMatch` | apigateway/cmd/apigateway/main.go:3251-3253 | a route and a worker are sure to mean the same replicas if and only if their epochs are equal, for all epochs up to eight short of 2^64 |
| `UpsertFencing.OlderPointAdmitted` | apigateway/cmd/apigateway/main.go:3293-3298 | a reachable system in which a worker admits a batch with a point whose own route has an older epoch and other replicas, and would have been refused by itself |
| `MovePlan.BackoffIsCappedDoubling` | placementdriver/internal/server/reconciliation.go:1082-1099 | the retry delay is min(30 s, 2 s doubled per attempt); the cap on the shift never shows |
| `MovePlan.BackoffNeverShrinks` | placementdriver/internal/server/reconciliation.go:1082-1099 | the delay never shrinks within a phase |
| `MovePlan.RemovalNeedsCaughtUpTarget` | placementdriver/internal/server/reconciliation.go:977-1027 | the source is removed only on fresh reports of leader and target, at an epoch no older than the shard's, the target at or past the recorded index |
| `MovePlan.DecisionProvenance` | placementdriver/internal/server/reconciliation.go:993-1017 | the index and epoch a move waits for are kept, forgotten together, or read from the leader's report at an epoch no older than the shard's |
| `MovePlan.DecisionInTime` | placementdriver/internal/server/reconciliation.go:951-963 | every decision whose proposal is taken, or that is made in time, leaves the next attempt within the deadline |
| `MovePlan.DeadlineEndsMove` | placementdriver/internal/server/reconciliation.go:951-963 | past the deadline an accepted decision ends the move |
| `MoveSteps.WaitTargetStep` | placementdriver/internal/server/reconciliation.go:977-1028 | a waiting move goes on to remove its source if and only if its target is healthy, runs the shard and has joined, and both the leader's and the target's fresh reports are at or above the epoch awaited, with the target at or past the index awaited |
| `MoveSteps.TargetWaits` | placementdriver/internal/server/reconciliation.go:977-1027 | what it keeps in mind while it waits: the epoch and index awaited, and when to look again |
| `MoveSteps.AddTargetStep` | placementdriver/internal/server/reconciliation.go:966-976 | a move in its first phase proposes to add its target unless that is a replica, and then waits |
| `MoveSteps.RemoveSourceStep` | placementdriver/internal/server/reconciliation.go:1029-1049 | past its wait it proposes to remove its source for as long as that is a replica, noting a leadership and the membership to wait for |
| `MoveSteps.WaitRemovalStep` | placementdriver/internal/server/reconciliation.go:1050-1078 | a move is complete if and only if a fresh and later membership lacks its source, a leadership it held was handed over, and it is not the leader |
| `MoveSteps.OverdueStep` | placementdriver/internal/server/reconciliation.go:951-960 | past half an hour a move is given up, after proposing to take its target back where that is possible |
| `MoveSteps.ReadyMovesRemove` | placementdriver/internal/server/reconciliation.go:1022-1049 | looked at twice with its target ready, a move with an accepted proposal has taken its source, and no other replica, off the shard |
| `MoveSteps.NotDueIsKept` | placementdriver/internal/server/reconciliation.go:951-964 | a move whose next attempt is not due is left alone |
| `MoveSteps.GoneIsDropped` | placementdriver/internal/server/reconciliation.go:944-949 | a move whose shard is gone is dropped |
| `MoveSteps.StartStep` | placementdriver/internal/server/reconciliation.go:900-940 | what a move records when it starts, and that it adds its target unless that is a replica |
| `MoveSteps.ProgressStep` | placementdriver/internal/server/server.go:921-948 | a replica's report replaces its last one, stamped with the clock; others are ignored |
| `MoveSteps.MembershipStep` | placementdriver/internal/server/server.go:850-881 | a self-reported leader's membership replaces the last one; others are ignored |
| `MoveSteps.AckStep` | placementdriver/internal/server/server.go:968-995 | the source's acknowledgement replaces its last one; others are ignored |
| `Rebalance.ActionGood` | placementdriver/internal/server/reconciliation.go:900-1080 | log commands, reports, clock ticks, starts and advances all keep the protocol invariant |
| `Rebalance.ExecutionGood` | placementdriver/internal/server/reconciliation.go:585-647 | so in every interleaving |
| `MoveSafety.RemovalWaitsForTarget` | placementdriver/internal/server/reconciliation.go:977-1027 | in every execution, when a move begins to remove its source, its target is among the shard's replicas and has reported, at the present epoch, that it reached the very index the move recorded, which the leader reported at that epoch |
| `MoveSafety.AdvancesOnlyRemove` | placementdriver/internal/server/reconciliation.go:942-1049 | in every execution, looking at a move proposes only to remove its source, after its target was found caught up, or past the timeout to take back the target it added, with the source still there and replicas to spare |
| `MoveSafety.CompletedMovesMoved` | placementdriver/internal/server/reconciliation.go:1050-1078 | in every execution, a move that completes in time had its target found caught up, and the fresh membership lacks its source, which is not the leader |
| `MoveSafety.RemovalLeavesTarget` | placementdriver/internal/server/reconciliation.go:1028-1049 | if nothing else takes the target away meanwhile, the removal leaves it a replica |
| `MoveSafety.StepSpares` | placementdriver/internal/fsm/fsm.go:959-1146 | only removing that replica, moving it away or deleting its collection takes a replica from a shard |
| `MoveSafety.MovesAreBounded` | placementdriver/internal/server/reconciliation.go:585-647 | at most the configured number of moves in flight, one per shard, none onto its own source |
| `MoveSafety.MovesKeepFloor` | placementdriver/internal/server/reconciliation.go:1108-1127 | whatever becomes of moves, a shard that had c replicas keeps min(c, RF) |
| `MoveSafety.MovesEndInTime` | placementdriver/internal/server/reconciliation.go:951-963 | with rollback proposals taken, a move looked at thirty seconds past its half hour is gone |
| `RebalanceManager.RebalanceManager.TakeProgress` | placementdriver/internal/server/server.go:921-948 | progress is recorded only from workers assigned to the shard |
| `RebalanceManager.RebalanceManager.TakeMembership` | placementdriver/internal/server/server.go:850-881 | membership only from a self-reported leader assigned to the shard |
| `RebalanceManager.RebalanceManager.TakeAck` | placementdriver/internal/server/server.go:968-995 | transfer acknowledgements only from the worker they name as source |
| `RebalanceManager.RebalanceManager.Propose` | placementdriver/internal/server/reconciliation.go:1145-1170 | an accepted proposal appends to the log what the command does, refused or not |
| `RebalanceManager.RebalanceManager.ExecuteMove` | placementdriver/internal/server/reconciliation.go:900-940 | a move starts exactly when it may, adding its target first; otherwise nothing changes |
| `RebalanceManager.RebalanceManager.AdvanceOne` | placementdriver/internal/server/reconciliation.go:942-1080 | looking at one move does the protocol's advance step |
| `RebalanceManager.RebalanceManager.AdvanceMoves` | placementdriver/internal/server/reconciliation.go:942-1080 | looking at all moves advances each of them once, and nothing else, and leaves no overdue move with accepted proposals |
| `RebalanceManager.RebalanceManager.RunCycle` | placementdriver/internal/server/reconciliation.go:585-647 | a cycle advances every move and starts others, and nothing else; it never exceeds the cap on moves or the cap per interval, leaves no overdue move with accepted proposals, and leads from a good world with room to a good world |
| `RebalanceManager.PerformGood` | placementdriver/internal/server/reconciliation.go:585-647 | any starts and advances keep the protocol invariant while the log has room for as many changes of configuration |
| `Reconcile.PassEffect` | placementdriver/internal/server/reconciliation.go:130-220 | the first under-replicated shards met end with min(RF, healthy + free slots, healthy + candidates) healthy replicas, all other counts stay; all are met, or as many repaired as the limit allows, and at least one |
| `Reconcile.PassNeverLowers` | placementdriver/internal/server/reconciliation.go:96-127 | a pass never lowers any shard's healthy count and removes no shard |
| `Reconcile.DeficitFalls` | placementdriver/internal/server/reconciliation.go:130-220 | the total deficit strictly falls in every pass that finds a repairable shard |
| `Reconcile.QuietStays` | placementdriver/internal/server/reconciliation.go:288-308 | once every under-replicated shard lacks a slot or a candidate, passes keep it so and change no healthy count |
| `Reconcile.DeadReplicasGo` | placementdriver/internal/server/reconciliation.go:288-308 | after a pass a dead worker is a replica only of shards with at most RF replicas or fewer than RF healthy ones |
| `Reconcile.DeadWorkersGo` | placementdriver/internal/server/reconciliation.go:266-286 | after a pass a dead worker is registered only while it is a replica of some shard |
| `Reconcile.PassSparesTheLiving` | placementdriver/internal/server/reconciliation.go:96-127 | a worker heard from in the last day stays registered through a pass, and keeps every shard it has |
| `Reconcile.PassAddsHealthy` | placementdriver/internal/server/reconciliation.go:130-220 | only healthy workers gain a shard in a pass, and only an under-replicated one |
| `Reconcile.AdditionsComeFirst` | placementdriver/internal/server/reconciliation.go:178-204 | a repair takes healthy workers in the order they were met, passing over none that lacks the shard |
| `Reconcile.PassesConverge` | placementdriver/internal/server/reconciliation.go:96-127 | such a state is reached after at most as many passes as the deficit at the start |
| `Reconciler.Reconciler.Reconcile` | placementdriver/internal/server/reconciliation.go:96-127 | one pass of the loops is a pass: under-replicated shards, healthy workers and dead workers are all listed, and every shard of every dead worker is looked at, in orders of its own choosing |
| `Reconciler.Reconciler.RepairUnderReplicatedShards` | placementdriver/internal/server/reconciliation.go:130-220 | the repair loop does what repairing in list order means, the limit looked at after each proposal |
| `Reconciler.Reconciler.CleanupDeadReplicas` | placementdriver/internal/server/reconciliation.go:288-308 | every shard of every dead worker is looked at, and loses the dead replica if it has more than RF replicas and RF healthy ones |
| `Reconciler.Reconciler.CleanupDeadWorkers` | placementdriver/internal/server/reconciliation.go:266-286 | dead workers without shards are unregistered |
| `Reconciler.CountHealthy` | placementdriver/internal/fsm/health.go:242-260 | the counting loop counts the healthy entries of a replica list |
| `Reconciler.Reconciler.UnderReplicatedShards` | placementdriver/internal/fsm/health.go:318-340 | the report lists each shard with fewer than RF healthy replicas once |
| `Ranking.BeforeTotal` | apigateway/cmd/apigateway/main.go:910-925 | score then identifier is a strict total order |
| `Aggregator.AddAllInv` | apigateway/cmd/apigateway/main.go:988-1053 | for any input: at most the limit of entries, each with exactly one live heap item, stale items strictly worse |
| `Aggregator.CompactOne` | apigateway/cmd/apigateway/main.go:1031-1053 | one item over the limit: a stale worst item goes, and stale ones below it, or else the worst entry is evicted |
| `Aggregator.ExactIffNoLoss` | apigateway/cmd/apigateway/main.go:1035-1053 | the entries are the best identifiers with their best scores after every result, if and only if no step evicts an entry for which there was room |
| `Aggregator.NeverImprovesExact` | apigateway/cmd/apigateway/main.go:988-1006 | while no identifier is seen again with a better score, the entries are the best of all identifiers seen, including those evicted and seen again |
| `Aggregator.UniformExact` | apigateway/cmd/apigateway/main.go:988-1006 | so with one score per identifier, the best identifiers by that score |
| `Aggregator.OrderDoesNotMatter` | apigateway/cmd/apigateway/main.go:988-1006 | with one score per identifier, order, splitting and repetition do not matter |
| `Aggregator.EntriesAreResults` | apigateway/cmd/apigateway/main.go:988-1006 | an entry's payload came with its identifier and its score |
| `Aggregator.ImprovementLosesEntry` | apigateway/cmd/apigateway/main.go:1035-1053 | limit two, A at 4, B at 5, A at 3: B is lost |
| `AggregatorLoops.SearchAggregator.AddResults` | apigateway/cmd/apigateway/main.go:988-1006 | the loop, heap and map updated in place do what adding means |
| `AggregatorLoops.SearchAggregator.CompactHeap` | apigateway/cmd/apigateway/main.go:1031-1053 | the compaction loops do what compacting means |
| `AggregatorLoops.SearchAggregator.Snapshot` | apigateway/cmd/apigateway/main.go:1008-1029 | the snapshot is, in order, the first k of the entries, with their payloads |
| `AggregatorLoops.SnapshotIsTopK` | apigateway/cmd/apigateway/main.go:1008-1029 | while no identifier improves, the snapshot is exactly the first min(k, limit) identifiers seen by (lowest score, id) |
| `AggregatorLoops.FirstUnique` | apigateway/cmd/apigateway/main.go:1008-1029 | there is only one such list |
| `TopK.LocalBoundIsHarmless` | worker/internal/grpc.go:848-875 | cutting a shard's hits to its own k smallest does not change the k smallest of the whole |
| `TopK.TwoLevels` | worker/internal/grpc.go:848-919 | the k smallest of what the local heaps kept are the k smallest of everything |
| `TopK.DedupedIsBest` | worker/internal/grpc.go:895-930 | with de-duplication, and ids distinct within each shard, the output is the k best distinct ids up to ties, each with its lowest score |
| `SearchMerge.LocalTop` | worker/internal/grpc.go:848-868 | the bounded heap over a shard's parallel arrays keeps its k smallest hits |
| `SearchMerge.Merge` | worker/internal/grpc.go:880-942 | the merge is ascending and is the k smallest hits, or the k best distinct ids |
| `SearchMerge.Drain` | worker/internal/grpc.go:932-940 | filling from the back gives the heap's hits in ascending order |
| `SearchMerge.SearchBroadcast` | worker/internal/grpc.go:766-942 | one shard's answer is returned as it is; otherwise the k smallest hits, or the k best distinct ids, of all shards that answered, with aligned arrays, where k is ten if none is asked for |
| `SearchMerge.AnsweredKeepsAll` | worker/internal/grpc.go:838-842 | exactly the failed shards are left out: every answer is merged as often as it occurs |
| `SearchMerge.HitsAre` | worker/internal/grpc.go:851-862 | an answer's hits, entry by entry, up to the end of the shorter array |
| `SearchMerge.ResponseAligned` | worker/internal/grpc.go:932-942 | ids, scores and metadata of the response read back as its hits |
| `SearchBatcher.StepInv` | apigateway/cmd/apigateway/main.go:2279-2384 | enqueues, cancellations, timer drains, scans, calls and deliveries keep the batcher's invariant |
| `SearchBatcher.DrainedGroupsAreClosed` | apigateway/cmd/apigateway/main.go:2313-2324 | a drained group is never again reachable from the pending table nor grows, and no group exceeds the batch size |
| `SearchBatcher.OneAnswerAtMost` | apigateway/cmd/apigateway/main.go:2326-2384 | no send finds its channel full, and a response goes only to the caller whose query it answers |
| `SearchBatcher.LiveCallersAreAnswered` | apigateway/cmd/apigateway/main.go:2326-2384 | once its group has finished, a caller whose context is live has exactly one answer: its own response or the batch error |
| `BatchAnswers.LiveCallersGetTheirCall` | apigateway/cmd/apigateway/main.go:2357-2384 | and that is the one its group's call gave it: the response in its place if there were as many responses as requests, or else the error of the call or of the mismatch |
| `BatchAnswers.SizedCallsReply` | apigateway/cmd/apigateway/main.go:2379-2384 | if the call returned a response for each request, every request of it ends with just the response in its place |
| `BatchAnswers.ErrorsComeFromCalls` | apigateway/cmd/apigateway/main.go:2357-2378 | a batch error is told only if the call failed with it or returned another number of responses |
| `BatchAnswers.SentIffLiveAtScan` | apigateway/cmd/apigateway/main.go:2326-2336 | a request is put into the call if and only if its caller was live when the scan came to it |
| `BatchAnswers.LiveUntilCancelled` | apigateway/cmd/apigateway/main.go:2300-2308 | a caller is live exactly until it is cancelled |
| `BatchAnswers.RequestsWereEnqueued` | apigateway/cmd/apigateway/main.go:2283-2298 | a request is what some caller enqueued, for the worker its group is bound for |
| `BatchAnswers.JoinsIffRoom` | apigateway/cmd/apigateway/main.go:2283-2298 | a caller joins the group pending for its worker exactly if that has room, and opens one otherwise |
| `BatchAnswers.DrainTakesOwnKey` | apigateway/cmd/apigateway/main.go:2322-2324 | a timer takes only its own worker's entry off the pending table |
| `BatchAnswers.NobodyLeft` | apigateway/cmd/apigateway/main.go:2337-2340 | with nobody left to search for the group finishes without a call |
| `SearchBatcher.DrainedGroupsFinish` | apigateway/cmd/apigateway/main.go:2313-2384 | a drained group always has a step of its own to take, and each takes it nearer its end |
| `SearchBatcher.NewerGroupUnlisted` | apigateway/cmd/apigateway/main.go:2322-2324 | a timer may remove a newer group's pending entry |
| `SearchBatcher.BatchSearch` | worker/internal/grpc.go:634-698 | responses at the places of their requests, or the error that came first, in any order of completion |
| `SearchBatcher.BatchOfOneSkipsLease` | worker/internal/grpc.go:644-650 | answered batches of n searches hold only leases that would be admitted, for all leases and searches, if and only if n is more than one; a single search under a stale lease is answered |
| `SingleFlight.StepInv` | apigateway/cmd/apigateway/main.go:4319-4350 | arrivals, the two steps of finishing, cancellations and returns keep the invariant |
| `SingleFlight.OneSearchPerKey` | worker/internal/grpc.go:1014-1030 | no key is being searched by two leaders |
| `SingleFlight.PublishesOnce` | worker/internal/grpc.go:1032-1045 | a leader takes its own flight off the table, and publishes to a flight nobody has published to |
| `SingleFlight.WaitersGetTheirFlight` | apigateway/cmd/apigateway/main.go:4319-4335 | an answered waiter got the result of the leader of the flight it joined, after it was published |
| `SingleFlight.GivesUpOnlyWhenCancelled` | apigateway/cmd/apigateway/main.go:4323-4329 | in every interleaving, a caller that gave up was cancelled itself, while it was waiting |
| `SingleFlight.AllFinishedMeansEmpty` | apigateway/cmd/apigateway/main.go:4337-4350 | when all leaders have finished the table is empty and every waiter can return |
| `UpsertBatching.GreedySplits` | clientlibs/js/src/client.ts:662-686 | the batches concatenate to the points in order, are non-empty and within the limits, but for single points over the byte limit |
| `UpsertBatching.GreedyIsOptimal` | clientlibs/js/src/client.ts:662-686 | no order-preserving split within the limits has fewer batches |
| `UpsertBatching.MakeBatches` | clientlibs/js/src/client.ts:641-686 | the JavaScript loops give the greedy split: all the points in order, at most the size asked for to a batch, or 256, each within the limit in bytes or a single point, and no such batches are fewer |
| `UpsertBatching.SendBatches` | clientlibs/go/client.go:768-799 | the Go loops give the same |
| `UpsertBatching.TotalSnoc` | clientlibs/js/src/client.ts:650-658 | every point of a batch counts with its own size |
| `UpsertBatching.SharesCoverBatches` | clientlibs/js/src/client.ts:694-708 | the modulo split over workers covers each batch exactly once |
| `UpsertBatching.UpsertBatches` | clientlibs/js/src/client.ts:636-708 | the total returned is the sum over the greedy split, whatever the concurrency |
| `RateLimit.CleanUpChangesNoDecision` | apigateway/internal/middleware/ratelimit.go:57-71 | clean-up passes anywhere change no decision |
| `RateLimit.AtMostTwiceTheRate` | apigateway/internal/middleware/ratelimit.go:76-105 | a user has at most twice rps requests let through in any closed second |
| `RateLimit.WindowTakesRate` | apigateway/internal/middleware/ratelimit.go:88-101 | in each window exactly the first rps requests are let through |
| `RateLimit.RateLimiter.Intercept` | apigateway/internal/middleware/ratelimit.go:76-105 | users without a name, the benchmark user and all users under a limit of zero or less are let through uncounted; everyone else is counted in a window of one second and let through up to the limit |
| `RateLimit.RateLimiter.CleanUpExpired` | apigateway/internal/middleware/ratelimit.go:57-71 | the clean-up loop drops exactly the expired entries of the users it looks at |

## Left out

- Raft, gRPC, Redis, storage and JSON: commands are values of a datatype, raft is one totally ordered log, and a snapshot restored into the state machine is the state it was taken from.
- Counters that wrap: a 64-bit counter wraps in the functions, but runs are limited to those in which epochs and ids have room for the next command (`Headroom`), and a collection has at most 2^52 shards.
- Several clock readings within one loop: a creation has two readings, one for counting the eligible workers and a later one for sorting them, and every other command has one; the code reads the clock anew for each worker it looks at.
- The load formula with its smoothed inputs, and the choice of moves to plan: loads and planned moves are any values.
- The compaction back-off of the rebalancer, which only skips whole cycles, and its statistics.
- Determinism across driver replicas: the code reads local clocks and map orders, so equal logs need not give equal states; one node's run is modelled.
- Hash functions: the hash of an identifier is any function to 64-bit values, and so is the key of a search in flight.
- Shard ids of 2^32 and above, which replies truncate.
- How an upsert's lookup fails: a lookup answers with a route or with nothing.
- Lists that handlers receive in one message: heartbeat reports are taken one at a time.
- Heaps: `container/heap` is taken at its contract, with the worst item on top; for the worker's heap any of the items with the worst score may be on top. Scores are reals, without NaN.
- The result cache, TinyLFU admission, connection pools, hedged reads, the trimming heap of the gateway's per-worker results, reranking and the write-ahead log.
- Point sizes: the estimated size of a point is any function to the naturals, so the difference between UTF-16 units and bytes does not show.
- Upserts that fail: the clients' error paths, and the Go client's channel and worker goroutines, are not modelled; its batches are listed in the order they are sent.
- The 256 maps of the rate limiter are one map; a clean-up pass looks at any set of users.
- Batcher and single flight: steps are functions on values, not methods on shared objects, since the point is their interleaving; memory ordering below the granularity of a step does not show.
