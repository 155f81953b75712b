/** What each command of the placement driver's replicated log does to its state. */
module FsmModel {
  import opened Prelude
  import opened FsmTypes
  import Placement
  import KeySpace

  datatype Command =
    | RegisterPeer(peer: Peer)
    | RegisterWorker(grpcAddr: string, raftAddr: string, role: string, region: string, zone: string, rack: string)
    | RegisterReranker(grpcAddr: string, role: string)
    | CreateCollection(name: string, dimension: int, distance: string, initialShards: int)
    | DeleteCollection(name: string)
    | UpdateWorkerHeartbeat(worker: Id, load: real, running: seq<Id>)
    | UpdateRerankerHeartbeat(reranker: Id)
    | UpdateWorkerState(worker: Id, workerState: WorkerState)
    | RemoveWorker(worker: Id)
    | UpdateShardLeader(shard: Id, leader: Id)
    | MoveShard(shard: Id, source: Id, target: Id)
    | UpdateShardMetrics(shard: Id, qps: real, latency: real)
    | AddShardReplica(shard: Id, replica: Id)
    | RemoveShardReplica(shard: Id, replica: Id)

  /** What an application of a command takes from outside the log: the clock, and the clock again for creations, where
      workers are counted at `now` and sorted at `later`; the outcome of sorting the workers met in map order; and the
      quotient the processor computes. */
  datatype Env = Env(now: int, later: int, candidates: seq<Id>, quotient: KeySpace.Float, outOfRange: nat)

  datatype Reply = Refused | Accepted(value: nat)

  datatype Outcome = Outcome(state: State, reply: Reply)

  function ShardCount(initialShards: int): nat
  {
    if initialShards <= 0 then 1 else initialShards
  }

  ghost predicate ValidEnv(s: State, cmd: Command, env: Env)
  {
    cmd.CreateCollection? ==>
      && env.now <= env.later && Placement.LoadOrder(s.workers, env.later, env.candidates)
      && KeySpace.RoundedQuotient(ShardCount(cmd.initialShards), env.quotient)
  }

  // ---------------------------------------------------------------- shard lookup

  ghost predicate Hosts(s: State, name: string, sid: Id)
  {
    name in s.collections && sid in s.collections[name].shards
  }

  ghost predicate Exists(s: State, sid: Id)
  {
    exists name :: Hosts(s, name, sid)
  }

  ghost function Home(s: State, sid: Id): (name: string)
    requires Exists(s, sid)
    ensures Hosts(s, name, sid)
  {
    var name :| Hosts(s, name, sid);
    name
  }

  ghost function ShardOf(s: State, sid: Id): Shard
    requires Exists(s, sid)
  {
    s.collections[Home(s, sid)].shards[sid]
  }

  ghost function PutShard(s: State, sid: Id, sh: Shard): State
    requires Exists(s, sid)
  {
    var c := s.collections[Home(s, sid)];
    s.(collections := s.collections[Home(s, sid) := c.(shards := c.shards[sid := sh])])
  }

  function BumpEpoch(e: nat): nat
  {
    if Inc64(e) == 0 then 1 else Inc64(e)
  }

  /** Replace a shard's replicas, as every reconfiguration does. */
  ghost function Reconfigure(s: State, sid: Id, replicas: seq<Id>): State
    requires Exists(s, sid)
  {
    var sh := ShardOf(s, sid);
    PutShard(s, sid, sh.(replicas := replicas, epoch := Inc64(sh.epoch)))
      .(assignmentsEpoch := BumpEpoch(s.assignmentsEpoch))
  }

  // ---------------------------------------------------------------- workers and rerankers

  ghost predicate WorkerAt(s: State, id: Id, grpcAddr: string, raftAddr: string)
  {
    id in s.workers && s.workers[id].grpcAddr == grpcAddr && s.workers[id].raftAddr == raftAddr
  }

  ghost predicate RerankerAt(s: State, id: Id, grpcAddr: string)
  {
    id in s.rerankers && s.rerankers[id].grpcAddr == grpcAddr
  }

  ghost function ApplyRegisterWorker(s: State, cmd: Command, now: int): Outcome
    requires cmd.RegisterWorker?
  {
    if exists id: Id :: WorkerAt(s, id, cmd.grpcAddr, cmd.raftAddr) then
      var id: Id :| WorkerAt(s, id, cmd.grpcAddr, cmd.raftAddr);
      Outcome(s.(workers := s.workers[id := Reregistered(s.workers[id], cmd.role, now)]), Accepted(id))
    else
      var id := s.nextWorker;
      Outcome(s.(workers := s.workers[id := NewWorker(id, cmd, now)], nextWorker := Inc64(id)), Accepted(id))
  }

  function Reregistered(w: Worker, role: string, now: int): Worker
  {
    w.(lastHeartbeat := now, role := if role != "" then role else w.role)
  }

  function NewWorker(id: Id, cmd: Command, now: int): Worker
    requires cmd.RegisterWorker?
  {
    Worker(id, cmd.grpcAddr, cmd.raftAddr, now, Joining, if cmd.role == "" then "write" else cmd.role,
           [], 0.0, cmd.region, cmd.zone, cmd.rack)
  }

  ghost function ApplyRegisterReranker(s: State, cmd: Command, now: int): Outcome
    requires cmd.RegisterReranker?
  {
    if exists id: Id :: RerankerAt(s, id, cmd.grpcAddr) then
      var id: Id :| RerankerAt(s, id, cmd.grpcAddr);
      var r := s.rerankers[id];
      Outcome(s.(rerankers := s.rerankers[id :=
        r.(lastHeartbeat := now, role := if cmd.role != "" then cmd.role else r.role)]), Accepted(id))
    else
      var id := s.nextReranker;
      var r := Reranker(id, cmd.grpcAddr, if cmd.role == "" then "rerank" else cmd.role, now);
      Outcome(s.(rerankers := s.rerankers[id := r], nextReranker := Inc64(id)), Accepted(id))
  }

  function HeartbeatWorker(w: Worker, load: real, running: seq<Id>, now: int): Worker
  {
    w.(lastHeartbeat := now, state := if w.state == Joining || w.state == Unknown then Ready else w.state,
       load := load, running := running)
  }

  ghost predicate HostsAnyShard(s: State, w: Id)
  {
    exists name, sid: Id :: Hosts(s, name, sid) && w in s.collections[name].shards[sid].replicas
  }

  ghost function ApplyRemoveWorker(s: State, w: Id): Outcome
  {
    if w !in s.workers || HostsAnyShard(s, w) then Outcome(s, Refused)
    else Outcome(s.(workers := s.workers - {w}), Accepted(0))
  }

  // ---------------------------------------------------------------- collections

  function NewShard(c: Command, i: nat, n: nat, sid: Id, size: nat, replicas: seq<Id>): Shard
    requires c.CreateCollection?
  {
    Shard(sid, c.name, KeySpace.StartKey(i, size), KeySpace.EndKey(i, n, size), replicas, 0, 1,
          false, replicas, c.dimension, c.distance, 0.0, 0.0)
  }

  /** The shard counter after `i` allocations. */
  function Advance(next: nat, i: nat): nat
  {
    if next + i < TWO64 then next + i else (next + i) % TWO64
  }

  function ShardMaker(c: Command, n: nat, size: nat, replicas: seq<Id>): (nat, Id) -> Shard
    requires c.CreateCollection?
  {
    (i: nat, sid: Id) => NewShard(c, i, n, sid, size, replicas)
  }

  /** The first `i` shards made by `make`, under consecutive ids from `first` on. */
  function NewShards(make: (nat, Id) -> Shard, i: nat, first: nat): map<Id, Shard>
  {
    if i == 0 then map[]
    else
      var sid := Advance(first, i - 1);
      NewShards(make, i - 1, first)[sid := make(i - 1, sid)]
  }

  function EligibleWorkers(ws: map<Id, Worker>, now: int): set<Id>
  {
    set id | id in ws && Eligible(ws[id], now)
  }

  ghost function ApplyCreate(rf: RepFactor, s: State, cmd: Command, env: Env): Outcome
    requires cmd.CreateCollection?
  {
    var eligible := |EligibleWorkers(s.workers, env.now)|;
    if cmd.name in s.collections || eligible == 0 then Outcome(s, Refused)
    else
      var n := ShardCount(cmd.initialShards);
      var size := KeySpace.RangeSize(env.quotient, env.outOfRange);
      var replicas := Placement.SelectReplicas(s.workers, env.candidates, Min(rf, eligible));
      var shards := NewShards(ShardMaker(cmd, n, size, replicas), n, s.nextShard);
      var c := Collection(cmd.name, cmd.dimension, cmd.distance, shards);
      Outcome(s.(collections := s.collections[cmd.name := c], nextShard := Advance(s.nextShard, n),
                 assignmentsEpoch := BumpEpoch(s.assignmentsEpoch)), Accepted(1))
  }

  // ---------------------------------------------------------------- shards

  ghost function ApplyLeader(s: State, sid: Id, leader: Id): Outcome
  {
    if !Exists(s, sid) then Outcome(s, Accepted(0))
    else
      var sh := ShardOf(s, sid).(leader := leader);
      Outcome(PutShard(s, sid, if leader > 0 then sh.(bootstrapped := true, bootstrapMembers := []) else sh), Accepted(0))
  }

  /** A metric smoothed by exponential decay. */
  function Decayed(old': real, reported: real): real
  {
    old' * 0.7 + reported * (1.0 - 0.7)
  }

  function Measured(sh: Shard, qps: real, latency: real): Shard
  {
    sh.(qps := Decayed(sh.qps, qps), latency := Decayed(sh.latency, latency))
  }

  ghost function ApplyMetrics(s: State, sid: Id, qps: real, latency: real): Outcome
  {
    if !Exists(s, sid) then Outcome(s, Accepted(0))
    else Outcome(PutShard(s, sid, Measured(ShardOf(s, sid), qps, latency)), Accepted(0))
  }

  ghost function ApplyAdd(s: State, sid: Id, w: Id, now: int): Outcome
  {
    if !Exists(s, sid) || !IsHealthy(s.workers, w, now) then Outcome(s, Refused)
    else
      var replicas := ShardOf(s, sid).replicas;
      if w in replicas then Outcome(s, Accepted(0))
      else if |replicas| >= MAX_REPLICATION_FACTOR then Outcome(s, Refused)
      else Outcome(Reconfigure(s, sid, replicas + [w]), Accepted(0))
  }

  /** The first position of `x` in `xs`, or -1. */
  function IndexOf(xs: seq<Id>, x: Id): (i: int)
    ensures -1 <= i < |xs| && (i < 0 <==> x !in xs)
    ensures i >= 0 ==> xs[i] == x && x !in xs[..i]
  {
    if xs == [] then -1
    else if xs[0] == x then 0
    else
      var j := IndexOf(xs[1..], x);
      assert xs == [xs[0]] + xs[1..];
      if j < 0 then -1
      else
        assert xs[..j + 1] == [xs[0]] + xs[1..][..j];
        j + 1
  }

  function Without(xs: seq<Id>, i: nat): seq<Id>
    requires i < |xs|
  {
    xs[..i] + xs[i + 1..]
  }

  ghost function ApplyRemove(rf: RepFactor, s: State, sid: Id, w: Id): Outcome
  {
    if !Exists(s, sid) || w !in ShardOf(s, sid).replicas then Outcome(s, Refused)
    else
      var replicas := ShardOf(s, sid).replicas;
      if |replicas| - 1 < Min(rf, |replicas|) then Outcome(s, Refused)
      else Outcome(Reconfigure(s, sid, Without(replicas, IndexOf(replicas, w))), Accepted(0))
  }

  ghost function ApplyMove(s: State, sid: Id, source: Id, target: Id): Outcome
  {
    if !Exists(s, sid) || source !in ShardOf(s, sid).replicas || target !in s.workers then Outcome(s, Refused)
    else
      var replicas := ShardOf(s, sid).replicas;
      Outcome(Reconfigure(s, sid, replicas[IndexOf(replicas, source) := target]), Accepted(1))
  }

  // ---------------------------------------------------------------- the log

  ghost function Apply(rf: RepFactor, s: State, cmd: Command, env: Env): Outcome
  {
    match cmd
    case RegisterPeer(p) => Outcome(s.(peers := s.peers[p.id := p]), Accepted(0))
    case RegisterWorker(_, _, _, _, _, _) => ApplyRegisterWorker(s, cmd, env.now)
    case RegisterReranker(_, _) => ApplyRegisterReranker(s, cmd, env.now)
    case CreateCollection(_, _, _, _) => ApplyCreate(rf, s, cmd, env)
    case DeleteCollection(name) =>
      if name == "" || name !in s.collections then Outcome(s, Refused)
      else Outcome(s.(collections := s.collections - {name}, assignmentsEpoch := BumpEpoch(s.assignmentsEpoch)), Accepted(1))
    case UpdateWorkerHeartbeat(w, load, running) =>
      if w !in s.workers then Outcome(s, Accepted(0))
      else Outcome(s.(workers := s.workers[w := HeartbeatWorker(s.workers[w], load, running, env.now)]), Accepted(0))
    case UpdateRerankerHeartbeat(r) =>
      if r !in s.rerankers then Outcome(s, Accepted(0))
      else Outcome(s.(rerankers := s.rerankers[r := s.rerankers[r].(lastHeartbeat := env.now)]), Accepted(0))
    case UpdateWorkerState(w, st) =>
      if w !in s.workers then Outcome(s, Refused)
      else Outcome(s.(workers := s.workers[w := s.workers[w].(state := st)]), Accepted(0))
    case RemoveWorker(w) => ApplyRemoveWorker(s, w)
    case UpdateShardLeader(sid, leader) => ApplyLeader(s, sid, leader)
    case MoveShard(sid, source, target) => ApplyMove(s, sid, source, target)
    case UpdateShardMetrics(sid, qps, latency) => ApplyMetrics(s, sid, qps, latency)
    case AddShardReplica(sid, w) => ApplyAdd(s, sid, w, env.now)
    case RemoveShardReplica(sid, w) => ApplyRemove(rf, s, sid, w)
  }

  const Initial: State := State(map[], map[], map[], map[], 1, 1, 1, 1)
}
