/** The records held by the placement driver's state machine. */
module FsmTypes {
  import opened Prelude

  type Id = nat

  /** A configured replication factor, after clamping. */
  type RepFactor = n: int | 1 <= n <= 5 witness 3

  const MAX_REPLICATION_FACTOR: int := 5
  /** Thirty seconds, and twenty-four hours, in nanoseconds. */
  const WORKER_TIMEOUT: int := 30_000_000_000
  const WORKER_CLEANUP_TIMEOUT: int := 86_400_000_000_000

  datatype WorkerState = Unknown | Joining | Ready | Draining

  /** `load` stands for the capacity-normalised load ratio. */
  datatype Worker = Worker(
    id: Id, grpcAddr: string, raftAddr: string, lastHeartbeat: int, state: WorkerState, role: string,
    running: seq<Id>, load: real, region: string, zone: string, rack: string)

  datatype Shard = Shard(
    shardID: Id, collection: string, start: nat, end: nat, replicas: seq<Id>, leader: Id, epoch: nat,
    bootstrapped: bool, bootstrapMembers: seq<Id>, dimension: int, distance: string, qps: real, latency: real)

  datatype Collection = Collection(name: string, dimension: int, distance: string, shards: map<Id, Shard>)

  datatype Peer = Peer(id: string, raftAddr: string, apiAddr: string)

  datatype Reranker = Reranker(id: Id, grpcAddr: string, role: string, lastHeartbeat: int)

  datatype State = State(
    peers: map<string, Peer>, workers: map<Id, Worker>, rerankers: map<Id, Reranker>,
    collections: map<string, Collection>, assignmentsEpoch: nat,
    nextShard: nat, nextWorker: nat, nextReranker: nat)

  predicate Healthy(w: Worker, now: int)
  {
    w.state == Ready && now - w.lastHeartbeat < WORKER_TIMEOUT
  }

  /** Eligible for the initial placement of a collection. */
  predicate Eligible(w: Worker, now: int)
  {
    Healthy(w, now) && w.role != "search_only"
  }

  predicate IsHealthy(ws: map<Id, Worker>, id: Id, now: int)
  {
    id in ws && Healthy(ws[id], now)
  }
}
