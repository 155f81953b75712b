/** What each command does, field by field, and what it leaves alone. */
module CommandEffects {
  import opened Prelude
  import opened FsmTypes
  import opened FsmModel
  import opened FsmInvariant
  import Placement
  import KeySpace

  // ---------------------------------------------------------------- what is left alone

  /** The record of one worker may differ, and nothing else. */
  ghost predicate OnlyWorker(s: State, t: State, w: Id)
  {
    && t == s.(workers := t.workers) && w in s.workers && t.workers.Keys == s.workers.Keys
    && forall x :: x in s.workers && x != w ==> t.workers[x] == s.workers[x]
  }

  /** One shard may differ, and the global epoch. */
  ghost predicate OnlyShard(s: State, t: State, sid: Id)
  {
    && t == s.(collections := t.collections, assignmentsEpoch := t.assignmentsEpoch)
    && Exists(s, sid) && Exists(t, sid) && t.collections.Keys == s.collections.Keys
    && (forall name :: name in s.collections ==> OnlyShards(s.collections[name], t.collections[name]))
    && forall id: Id :: SameShard(s, t, id, sid)
  }

  ghost predicate OnlyShards(c: Collection, d: Collection)
  {
    d == c.(shards := d.shards) && d.shards.Keys == c.shards.Keys
  }

  ghost predicate SameShard(s: State, t: State, id: Id, sid: Id)
  {
    && (Exists(t, id) <==> Exists(s, id))
    && (Exists(s, id) ==> Home(t, id) == Home(s, id) && (id != sid ==> ShardOf(t, id) == ShardOf(s, id)))
  }

  lemma PutOnly(s: State, sid: Id, sh: Shard, ae: nat)
    requires HomesUnique(s) && Exists(s, sid)
    ensures var t := PutShard(s, sid, sh).(assignmentsEpoch := ae);
      OnlyShard(s, t, sid) && ShardOf(t, sid) == sh
  {
    var t := PutShard(s, sid, sh).(assignmentsEpoch := ae);
    PutView(s, sid, sh, ae, sid);
    forall id: Id
      ensures SameShard(s, t, id, sid)
    {
      PutView(s, sid, sh, ae, id);
    }
  }

  ghost predicate Applies(rf: RepFactor, s: State, cmd: Command, env: Env, t: State, reply: Reply)
  {
    Inv(s) && Headroom(s, cmd) && Apply(rf, s, cmd, env) == Outcome(t, reply)
  }

  // ---------------------------------------------------------------- workers

  /** A heartbeat records when it came and what it says, and makes a worker ready that was not yet. */
  lemma HeartbeatEffect(rf: RepFactor, s: State, w: Id, load: real, running: seq<Id>, env: Env, t: State, reply: Reply)
    requires Applies(rf, s, UpdateWorkerHeartbeat(w, load, running), env, t, reply)
    ensures reply == Accepted(0) && (w !in s.workers ==> t == s)
    ensures w in s.workers ==>
      && OnlyWorker(s, t, w)
      && var a, b := s.workers[w], t.workers[w];
         && b.lastHeartbeat == env.now && b.load == load && b.running == running
         && b.state == (match a.state case Joining => Ready case Unknown => Ready case Ready => Ready case Draining => Draining)
         && b.id == a.id && b.grpcAddr == a.grpcAddr && b.raftAddr == a.raftAddr && b.role == a.role
         && b.region == a.region && b.zone == a.zone && b.rack == a.rack
  {
  }

  /** Setting a worker's state sets that, and is refused for a worker that is not registered. */
  lemma WorkerStateEffect(rf: RepFactor, s: State, w: Id, st: WorkerState, env: Env, t: State, reply: Reply)
    requires Applies(rf, s, UpdateWorkerState(w, st), env, t, reply)
    ensures if w in s.workers then reply == Accepted(0) && OnlyWorker(s, t, w) && t.workers[w] == s.workers[w].(state := st)
            else reply == Refused && t == s
  {
  }

  /** A worker goes exactly if it is registered and no shard has a replica on it. */
  lemma RemoveWorkerEffect(rf: RepFactor, s: State, w: Id, env: Env, t: State, reply: Reply)
    requires Applies(rf, s, RemoveWorker(w), env, t, reply)
    ensures reply.Accepted? <==> w in s.workers && forall sid: Id :: Exists(s, sid) ==> w !in ShardOf(s, sid).replicas
    ensures t == if reply.Accepted? then s.(workers := s.workers - {w}) else s
  {
    forall name, sid: Id | Hosts(s, name, sid)
      ensures Exists(s, sid) && ShardOf(s, sid) == s.collections[name].shards[sid]
    {
      HomeIs(s, name, sid);
    }
    forall sid: Id | Exists(s, sid) && w in ShardOf(s, sid).replicas
      ensures HostsAnyShard(s, w)
    {
      assert Hosts(s, Home(s, sid), sid);
    }
  }

  /** A registration under the addresses of a worker is answered with its id; it was heard from now, and takes the role
      sent, if one is. */
  lemma KnownWorkerEffect(rf: RepFactor, s: State, id: Id, cmd: Command, env: Env, t: State, reply: Reply)
    requires cmd.RegisterWorker? && Applies(rf, s, cmd, env, t, reply)
    requires id in s.workers && s.workers[id].grpcAddr == cmd.grpcAddr && s.workers[id].raftAddr == cmd.raftAddr
    ensures reply == Accepted(id) && OnlyWorker(s, t, id)
    ensures t.workers[id] == s.workers[id].(lastHeartbeat := env.now, role := t.workers[id].role)
    ensures t.workers[id].role == if cmd.role == "" then s.workers[id].role else cmd.role
  {
    assert WorkerAt(s, id, cmd.grpcAddr, cmd.raftAddr);
    assert forall x: Id :: WorkerAt(s, x, cmd.grpcAddr, cmd.raftAddr) ==> SameAddress(s.workers[x], s.workers[id]);
  }

  /** Under other addresses it is answered with the next id, for a worker that has yet to join. */
  lemma NewWorkerEffect(rf: RepFactor, s: State, cmd: Command, env: Env, t: State, reply: Reply)
    requires cmd.RegisterWorker? && Applies(rf, s, cmd, env, t, reply)
    requires !exists id :: id in s.workers && s.workers[id].grpcAddr == cmd.grpcAddr && s.workers[id].raftAddr == cmd.raftAddr
    ensures reply == Accepted(s.nextWorker) && s.nextWorker in t.workers && s.nextWorker !in s.workers
    ensures t == s.(workers := t.workers, nextWorker := s.nextWorker + 1) && t.workers - {s.nextWorker} == s.workers
    ensures var b := t.workers[s.nextWorker];
      && b.id == s.nextWorker && b.grpcAddr == cmd.grpcAddr && b.raftAddr == cmd.raftAddr && b.lastHeartbeat == env.now
      && b.state == Joining && b.running == [] && b.load == 0.0 && b.role == (if cmd.role == "" then "write" else cmd.role)
      && b.region == cmd.region && b.zone == cmd.zone && b.rack == cmd.rack
  {
    assert s.nextWorker !in s.workers;
  }

  // ---------------------------------------------------------------- rerankers and peers

  /** The same for rerankers, which are known by one address. */
  lemma RerankerEffect(rf: RepFactor, s: State, grpc: string, role: string, env: Env, t: State, reply: Reply)
    requires Applies(rf, s, RegisterReranker(grpc, role), env, t, reply)
    ensures reply.Accepted? && reply.value in t.rerankers
    ensures reply.value in s.rerankers <==> exists id :: id in s.rerankers && s.rerankers[id].grpcAddr == grpc
    ensures t.rerankers - {reply.value} == s.rerankers - {reply.value}
    ensures t.rerankers[reply.value].grpcAddr == grpc && t.rerankers[reply.value].lastHeartbeat == env.now
    ensures role != "" ==> t.rerankers[reply.value].role == role
    ensures reply.value in s.rerankers ==>
      && t == s.(rerankers := t.rerankers) && t.rerankers[reply.value].id == s.rerankers[reply.value].id
      && (role == "" ==> t.rerankers[reply.value].role == s.rerankers[reply.value].role)
    ensures reply.value !in s.rerankers ==>
      && reply.value == s.nextReranker == t.rerankers[reply.value].id
      && t == s.(rerankers := t.rerankers, nextReranker := s.nextReranker + 1)
      && (role == "" ==> t.rerankers[reply.value].role == "rerank")
  {
    if exists id :: id in s.rerankers && s.rerankers[id].grpcAddr == grpc {
      var id :| id in s.rerankers && s.rerankers[id].grpcAddr == grpc;
      assert RerankerAt(s, id, grpc);
    }
    assert s.nextReranker !in s.rerankers;
  }

  lemma RerankerHeartbeatEffect(rf: RepFactor, s: State, r: Id, env: Env, t: State, reply: Reply)
    requires Applies(rf, s, UpdateRerankerHeartbeat(r), env, t, reply)
    ensures reply == Accepted(0) && t == s.(rerankers := t.rerankers) && t.rerankers.Keys == s.rerankers.Keys
    ensures forall x :: x in s.rerankers ==>
      t.rerankers[x] == if x == r then s.rerankers[x].(lastHeartbeat := env.now) else s.rerankers[x]
  {
  }

  lemma PeerEffect(rf: RepFactor, s: State, p: Peer, env: Env, t: State, reply: Reply)
    requires Applies(rf, s, RegisterPeer(p), env, t, reply)
    ensures reply == Accepted(0) && t == s.(peers := t.peers) && t.peers.Keys == s.peers.Keys + {p.id}
    ensures forall x :: x in t.peers ==> t.peers[x] == if x == p.id then p else s.peers[x]
  {
  }

  // ---------------------------------------------------------------- collections

  /** A worker that a new collection may be placed on: ready, heard from in the last thirty seconds, and not search-only. */
  ghost predicate CanHost(ws: map<Id, Worker>, id: Id, now: int)
  {
    id in ws && ws[id].state == Ready && now - ws[id].lastHeartbeat < 30_000_000_000 && ws[id].role != "search_only"
  }

  ghost predicate AllCanHost(ws: map<Id, Worker>, ids: seq<Id>, now: int)
  {
    Distinct(ids) && forall id :: id in ids ==> CanHost(ws, id, now)
  }

  /** A creation is refused exactly where the name is taken or no worker can host when they are counted, and then changes
      nothing. */
  lemma CreateAcceptedIff(rf: RepFactor, s: State, cmd: Command, env: Env, t: State, reply: Reply)
    requires cmd.CreateCollection? && Applies(rf, s, cmd, env, t, reply)
    ensures reply.Accepted? <==> cmd.name !in s.collections && exists id :: CanHost(s.workers, id, env.now)
    ensures reply == Refused ==> t == s
  {
    var e := EligibleWorkers(s.workers, env.now);
    assert forall id :: id in e <==> CanHost(s.workers, id, env.now);
    if exists id :: CanHost(s.workers, id, env.now) {
      var id :| CanHost(s.workers, id, env.now);
      assert id in e;
    }
  }

  /** Each shard of the new collection starts where the one before it ends, with its fair share of the keys. */
  ghost predicate FairRange(shards: map<Id, Shard>, first: Id, n: nat, sid: Id)
  {
    && sid in shards
    && (sid == first ==> shards[sid].start == 0)
    && (sid + 1 == first + n ==> shards[sid].end == TWO64 - 1)
    && (sid + 1 < first + n ==>
          && sid + 1 in shards && shards[sid + 1].start == shards[sid].end + 1
          && TWO64 - 2048 - n <= n * (shards[sid].end + 1 - shards[sid].start) <= TWO64 + 2048)
  }

  /** The next ids, one for each shard, in the order of the ranges. */
  ghost predicate Divided(shards: map<Id, Shard>, first: Id, n: nat)
  {
    && (forall sid: Id :: sid in shards <==> first <= sid < first + n)
    && forall sid: Id :: sid in shards ==> FairRange(shards, first, n, sid)
  }

  ghost predicate AllPlacedOn(shards: map<Id, Shard>, replicas: seq<Id>)
  {
    forall sid: Id :: sid in shards ==> shards[sid].replicas == replicas
  }

  lemma NewShardsDivide(c: Command, n: nat, first: nat, q: KeySpace.Float, outOfRange: nat, replicas: seq<Id>)
    requires c.CreateCollection? && 1 <= n <= KeySpace.MAX_SHARDS && first + n < TWO64 && KeySpace.RoundedQuotient(n, q)
    ensures var shards := NewShards(ShardMaker(c, n, KeySpace.RangeSize(q, outOfRange), replicas), n, first);
      Divided(shards, first, n) && AllPlacedOn(shards, replicas)
  {
    var make := ShardMaker(c, n, KeySpace.RangeSize(q, outOfRange), replicas);
    forall sid: Id
      ensures sid in NewShards(make, n, first) <==> first <= sid < first + n
      ensures sid in NewShards(make, n, first) ==> NewShards(make, n, first)[sid] == make(sid - first, sid)
    {
      NewShardsAt(make, n, first, sid);
    }
    forall sid: Id | sid in NewShards(make, n, first)
      ensures FairRange(NewShards(make, n, first), first, n, sid)
    {
      KeySpace.RangesAreFair(n, q, outOfRange, sid - first);
    }
  }

  ghost predicate Creates(rf: RepFactor, s: State, cmd: Command, env: Env, t: State)
  {
    && Inv(s) && cmd.CreateCollection? && ValidEnv(s, cmd, env) && Headroom(s, cmd)
    && cmd.name !in s.collections && EligibleWorkers(s.workers, env.now) != {} && t == Apply(rf, s, cmd, env).state
  }

  lemma Created(rf: RepFactor, s: State, cmd: Command, env: Env, t: State)
    requires Creates(rf, s, cmd, env, t)
    ensures var n := ShardCount(cmd.initialShards);
      && t == s.(collections := t.collections, nextShard := s.nextShard + n, assignmentsEpoch := s.assignmentsEpoch + 1)
      && cmd.name in t.collections && t.collections - {cmd.name} == s.collections
      && t.collections[cmd.name] == Collection(cmd.name, cmd.dimension, cmd.distance, t.collections[cmd.name].shards)
      && t.collections[cmd.name].shards == NewShards(ShardMaker(cmd, n, KeySpace.RangeSize(env.quotient, env.outOfRange),
           Placement.SelectReplicas(s.workers, env.candidates, Min(rf, |EligibleWorkers(s.workers, env.now)|))), n, s.nextShard)
  {
    assert |EligibleWorkers(s.workers, env.now)| > 0;
  }

  /** An accepted creation allocates the next ids, one for each shard asked for, or one where none is, to shards that
      divide the keys evenly in the order of their ids. All of them get the same replicas, as many as `rf` asks for and can
      host when they are sorted, spread over at least as many zones as any other choice, the first one least loaded. */
  lemma CreateEffect(rf: RepFactor, s: State, cmd: Command, env: Env, t: State) returns (replicas: seq<Id>)
    requires Creates(rf, s, cmd, env, t)
    ensures var n := if cmd.initialShards > 0 then cmd.initialShards else 1;
      && t == s.(collections := t.collections, nextShard := s.nextShard + n, assignmentsEpoch := s.assignmentsEpoch + 1)
      && cmd.name in t.collections && t.collections - {cmd.name} == s.collections
      && var c := t.collections[cmd.name];
         && c.name == cmd.name && c.dimension == cmd.dimension && c.distance == cmd.distance
         && Divided(c.shards, s.nextShard, n) && AllPlacedOn(c.shards, replicas)
    ensures AllCanHost(s.workers, replicas, env.later) && WidestSpread(s.workers, replicas, env.later)
    ensures LeastLoadedFirst(s.workers, replicas, env.later)
    ensures |replicas| == Min(rf, |HostsAt(s.workers, env.later)|)
  {
    Created(rf, s, cmd, env, t);
    replicas := PlacedReplicas(rf, s.workers, env);
    NewShardsDivide(cmd, ShardCount(cmd.initialShards), s.nextShard, env.quotient, env.outOfRange, replicas);
  }

  ghost function HostsAt(ws: map<Id, Worker>, now: int): set<Id>
  {
    set id | id in ws && CanHost(ws, id, now)
  }

  ghost predicate LeastLoadedFirst(ws: map<Id, Worker>, replicas: seq<Id>, now: int)
  {
    replicas != [] ==> replicas[0] in ws && forall id :: CanHost(ws, id, now) ==> ws[replicas[0]].load <= ws[id].load
  }

  /** At least as many zones as any other choice of as many workers that can host. */
  ghost predicate WidestSpread(ws: map<Id, Worker>, replicas: seq<Id>, now: int)
  {
    forall others: seq<Id> :: AllCanHost(ws, others, now) && |others| == |replicas| ==>
      |Placement.Zones(ws, others)| <= |Placement.Zones(ws, replicas)|
  }

  lemma PlacedReplicas(rf: RepFactor, ws: map<Id, Worker>, env: Env) returns (replicas: seq<Id>)
    requires env.now <= env.later && Placement.LoadOrder(ws, env.later, env.candidates) && EligibleWorkers(ws, env.now) != {}
    ensures replicas == Placement.SelectReplicas(ws, env.candidates, Min(rf, |EligibleWorkers(ws, env.now)|))
    ensures AllCanHost(ws, replicas, env.later) && WidestSpread(ws, replicas, env.later) && LeastLoadedFirst(ws, replicas, env.later)
    ensures |replicas| == Min(rf, |HostsAt(ws, env.later)|)
  {
    var actual, ids := Min(rf, |EligibleWorkers(ws, env.now)|), env.candidates;
    assert |EligibleWorkers(ws, env.now)| > 0;
    replicas := Placement.SelectReplicas(ws, ids, actual);
    PlacementFits(rf, ws, env.now, env.later, ids);
    assert HostsAt(ws, env.later) == EligibleWorkers(ws, env.later);
    forall others: seq<Id> | AllCanHost(ws, others, env.later) && |others| == |replicas|
      ensures |Placement.Zones(ws, others)| <= |Placement.Zones(ws, replicas)|
    {
      assert ToSet(others) <= ToSet(ids);
      Placement.ZonesAreMaximal(ws, ids, actual, others);
    }
    if ids != [] { Placement.FirstIsSelected(ws, ids, actual); }
    forall id | CanHost(ws, id, env.later)
      ensures id in ids
    {
    }
  }

  /** A collection that exists is deleted, and nothing else. */
  lemma DeleteEffect(rf: RepFactor, s: State, name: string, env: Env, t: State, reply: Reply)
    requires Applies(rf, s, DeleteCollection(name), env, t, reply)
    ensures reply.Accepted? <==> name != "" && name in s.collections
    ensures reply == Refused ==> t == s
    ensures reply.Accepted? ==>
      t.collections == s.collections - {name} && t == s.(collections := t.collections, assignmentsEpoch := s.assignmentsEpoch + 1)
  {
  }

  // ---------------------------------------------------------------- shards

  /** A leader is recorded; a real one makes the shard bootstrapped, for good. */
  lemma LeaderEffect(rf: RepFactor, s: State, sid: Id, leader: Id, env: Env, t: State, reply: Reply)
    requires Applies(rf, s, UpdateShardLeader(sid, leader), env, t, reply)
    ensures reply == Accepted(0) && (!Exists(s, sid) ==> t == s)
    ensures Exists(s, sid) ==>
      && OnlyShard(s, t, sid) && t.assignmentsEpoch == s.assignmentsEpoch
      && var a, b := ShardOf(s, sid), ShardOf(t, sid);
         && b == a.(leader := leader, bootstrapped := b.bootstrapped, bootstrapMembers := b.bootstrapMembers)
         && (b.bootstrapped <==> a.bootstrapped || leader > 0)
         && b.bootstrapMembers == if leader > 0 then [] else a.bootstrapMembers
  {
    if Exists(s, sid) {
      var sh := ShardOf(s, sid).(leader := leader);
      PutOnly(s, sid, if leader > 0 then sh.(bootstrapped := true, bootstrapMembers := []) else sh, s.assignmentsEpoch);
    }
  }

  ghost predicate Smoothed(before: real, after: real, reported: real)
  {
    10.0 * after == 7.0 * before + 3.0 * reported
  }

  /** Reported metrics count for three parts in ten, what was held before for seven. */
  lemma MetricsEffect(rf: RepFactor, s: State, sid: Id, qps: real, latency: real, env: Env, t: State, reply: Reply)
    requires Applies(rf, s, UpdateShardMetrics(sid, qps, latency), env, t, reply)
    ensures reply == Accepted(0) && (!Exists(s, sid) ==> t == s)
    ensures Exists(s, sid) ==>
      && OnlyShard(s, t, sid) && t.assignmentsEpoch == s.assignmentsEpoch
      && var a, b := ShardOf(s, sid), ShardOf(t, sid);
         && b == a.(qps := b.qps, latency := b.latency)
         && Smoothed(a.qps, b.qps, qps) && Smoothed(a.latency, b.latency, latency)
  {
    if Exists(s, sid) { PutOnly(s, sid, Measured(ShardOf(s, sid), qps, latency), s.assignmentsEpoch); }
  }

  /** A change of the replica list gives the shard, and the assignments, a new epoch. */
  ghost predicate Reconfigured(s: State, t: State, sid: Id)
  {
    && OnlyShard(s, t, sid) && t.assignmentsEpoch == s.assignmentsEpoch + 1
    && var a, b := ShardOf(s, sid), ShardOf(t, sid);
       b == a.(replicas := b.replicas, epoch := b.epoch) && b.epoch == a.epoch + 1
  }

  lemma ReconfigureEffect(s: State, sid: Id, replicas: seq<Id>)
    requires Inv(s) && EpochRoom(s) && Exists(s, sid)
    ensures var t := Reconfigure(s, sid, replicas); Reconfigured(s, t, sid) && ShardOf(t, sid).replicas == replicas
  {
    var sh := ShardOf(s, sid);
    assert Hosts(s, Home(s, sid), sid);
    PutOnly(s, sid, sh.(replicas := replicas, epoch := Inc64(sh.epoch)), BumpEpoch(s.assignmentsEpoch));
  }

  /** A healthy worker becomes the last replica of a shard with fewer than five, unless it is one already. */
  lemma AddEffect(rf: RepFactor, s: State, sid: Id, w: Id, env: Env, t: State, reply: Reply)
    requires Applies(rf, s, AddShardReplica(sid, w), env, t, reply)
    ensures reply.Accepted? <==>
      && Exists(s, sid) && w in s.workers && s.workers[w].state == Ready && env.now - s.workers[w].lastHeartbeat < 30_000_000_000
      && (w in ShardOf(s, sid).replicas || |ShardOf(s, sid).replicas| < 5)
    ensures reply.Accepted? && w !in ShardOf(s, sid).replicas ==>
      Reconfigured(s, t, sid) && ShardOf(t, sid).replicas == ShardOf(s, sid).replicas + [w]
    ensures !(reply.Accepted? && w !in ShardOf(s, sid).replicas) ==> t == s
  {
    if Exists(s, sid) { ReconfigureEffect(s, sid, ShardOf(s, sid).replicas + [w]); }
  }

  /** Only the first entry of the replica goes, only from more than `rf` replicas, and the others keep their order. */
  lemma RemoveEffect(rf: RepFactor, s: State, sid: Id, w: Id, env: Env, t: State, reply: Reply) returns (before: seq<Id>, after: seq<Id>)
    requires Applies(rf, s, RemoveShardReplica(sid, w), env, t, reply)
    ensures reply.Accepted? <==> Exists(s, sid) && w in ShardOf(s, sid).replicas && |ShardOf(s, sid).replicas| > rf
    ensures reply == Refused ==> t == s
    ensures reply.Accepted? ==>
      && Reconfigured(s, t, sid) && ShardOf(s, sid).replicas == before + [w] + after
      && ShardOf(t, sid).replicas == before + after && w !in before
  {
    before, after := [], [];
    if reply.Accepted? {
      var replicas := ShardOf(s, sid).replicas;
      var i := IndexOf(replicas, w);
      before, after := replicas[..i], replicas[i + 1..];
      ReconfigureEffect(s, sid, Without(replicas, i));
    }
  }

  /** The target takes the place of the source's first entry. */
  lemma MoveShardEffect(rf: RepFactor, s: State, sid: Id, source: Id, target: Id, env: Env, t: State, reply: Reply)
    returns (before: seq<Id>, after: seq<Id>)
    requires Applies(rf, s, MoveShard(sid, source, target), env, t, reply)
    ensures reply.Accepted? <==> Exists(s, sid) && source in ShardOf(s, sid).replicas && target in s.workers
    ensures reply == Refused ==> t == s
    ensures reply.Accepted? ==>
      && Reconfigured(s, t, sid) && ShardOf(s, sid).replicas == before + [source] + after
      && ShardOf(t, sid).replicas == before + [target] + after && source !in before
  {
    before, after := [], [];
    if reply.Accepted? {
      var replicas := ShardOf(s, sid).replicas;
      var i := IndexOf(replicas, source);
      before, after := replicas[..i], replicas[i + 1..];
      assert replicas[i := target] == before + [target] + after;
      assert replicas == before + [source] + after;
      ReconfigureEffect(s, sid, replicas[i := target]);
    }
  }
}
