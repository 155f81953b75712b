/** What every command of the log keeps, for every clock and every map order. */
module FsmInvariant {
  import opened Prelude
  import opened FsmTypes
  import opened FsmModel
  import Placement
  import KeySpace

  // ---------------------------------------------------------------- the invariant

  ghost predicate Holds(shards: map<Id, Shard>, sid: Id, key: nat)
  {
    sid in shards && shards[sid].start <= key <= shards[sid].end
  }

  ghost predicate Covered(shards: map<Id, Shard>, key: nat)
  {
    exists sid: Id :: Holds(shards, sid, key)
  }

  /** Every 64-bit key belongs to one shard and to no other. */
  ghost predicate Partition(shards: map<Id, Shard>)
  {
    && (forall key: nat :: key < TWO64 ==> Covered(shards, key))
    && (forall key: nat, a: Id, b: Id :: key < TWO64 && Holds(shards, a, key) && Holds(shards, b, key) ==> a == b)
  }

  ghost predicate SameAddress(v: Worker, w: Worker)
  {
    v.grpcAddr == w.grpcAddr && v.raftAddr == w.raftAddr
  }

  ghost predicate WorkersOk(s: State)
  {
    && (forall id :: id in s.workers ==> 1 <= id < s.nextWorker && s.workers[id].id == id)
    && (forall a, b :: a in s.workers && b in s.workers && SameAddress(s.workers[a], s.workers[b]) ==> a == b)
  }

  ghost predicate RerankersOk(s: State)
  {
    && (forall id :: id in s.rerankers ==> 1 <= id < s.nextReranker)
    && (forall a, b :: a in s.rerankers && b in s.rerankers && s.rerankers[a].grpcAddr == s.rerankers[b].grpcAddr ==> a == b)
  }

  ghost predicate ShardOk(ws: map<Id, Worker>, nextShard: nat, name: string, sid: Id, sh: Shard)
  {
    && sh.shardID == sid && sh.collection == name && 1 <= sid < nextShard
    && Placement.Registered(ws, sh.replicas) && |sh.replicas| <= MAX_REPLICATION_FACTOR
    && 1 <= sh.epoch && (sh.leader > 0 ==> sh.bootstrapped)
  }

  ghost predicate ShardsOk(s: State)
  {
    forall name, sid: Id :: Hosts(s, name, sid) ==>
      ShardOk(s.workers, s.nextShard, name, sid, s.collections[name].shards[sid])
  }

  /** No shard id is used by two collections. */
  ghost predicate HomesUnique(s: State)
  {
    forall a, b, sid: Id :: Hosts(s, a, sid) && Hosts(s, b, sid) ==> a == b
  }

  ghost predicate Inv(s: State)
  {
    && 1 <= s.nextShard && 1 <= s.nextWorker && 1 <= s.nextReranker && 1 <= s.assignmentsEpoch
    && WorkersOk(s) && RerankersOk(s) && ShardsOk(s) && HomesUnique(s)
    && forall name :: name in s.collections ==>
         s.collections[name].name == name && Partition(s.collections[name].shards)
  }

  /** No replica list names a worker twice. */
  ghost predicate ReplicasDistinct(s: State)
  {
    forall name, sid: Id :: Hosts(s, name, sid) ==> Distinct(s.collections[name].shards[sid].replicas)
  }

  // ---------------------------------------------------------------- steps and runs

  /** The 64-bit counters a command may advance do not wrap, and a new collection's shard count is supported. */
  ghost predicate Headroom(s: State, cmd: Command)
  {
    && EpochRoom(s) && s.nextWorker + 1 < TWO64 && s.nextReranker + 1 < TWO64
    && (cmd.CreateCollection? ==>
          ShardCount(cmd.initialShards) <= KeySpace.MAX_SHARDS && s.nextShard + ShardCount(cmd.initialShards) < TWO64)
  }

  ghost predicate Step(rf: RepFactor, s: State, cmd: Command, env: Env, s': State)
  {
    ValidEnv(s, cmd, env) && Headroom(s, cmd) && s' == Apply(rf, s, cmd, env).state
  }

  // ---------------------------------------------------------------- shard updates

  lemma HomeIs(s: State, name: string, sid: Id)
    requires HomesUnique(s) && Hosts(s, name, sid)
    ensures Exists(s, sid) && Home(s, sid) == name && ShardOf(s, sid) == s.collections[name].shards[sid]
  {
  }

  lemma PartitionFrame(a: map<Id, Shard>, b: map<Id, Shard>)
    requires Partition(a) && a.Keys == b.Keys
    requires forall sid: Id :: sid in a ==> a[sid].start == b[sid].start && a[sid].end == b[sid].end
    ensures Partition(b)
  {
    forall key: nat | key < TWO64
      ensures Covered(b, key)
    {
      assert Covered(a, key);
      var sid: Id :| Holds(a, sid, key);
      assert Holds(b, sid, key);
    }
    forall key: nat, x: Id, y: Id | key < TWO64 && Holds(b, x, key) && Holds(b, y, key)
      ensures x == y
    {
      assert Holds(a, x, key) && Holds(a, y, key);
    }
  }

  lemma PutShardInv(s: State, sid: Id, sh: Shard, ae: nat)
    requires Inv(s) && Exists(s, sid) && ae >= 1
    requires ShardOk(s.workers, s.nextShard, Home(s, sid), sid, sh)
    requires sh.start == ShardOf(s, sid).start && sh.end == ShardOf(s, sid).end
    ensures Inv(PutShard(s, sid, sh).(assignmentsEpoch := ae))
  {
    var t := PutShard(s, sid, sh).(assignmentsEpoch := ae);
    forall name, id: Id
      ensures Hosts(t, name, id) <==> Hosts(s, name, id)
      ensures Hosts(t, name, id) ==> ShardOk(t.workers, t.nextShard, name, id, t.collections[name].shards[id])
    {
    }
    forall name | name in t.collections
      ensures t.collections[name].name == name && Partition(t.collections[name].shards)
    {
      if name == Home(s, sid) {
        PartitionFrame(s.collections[name].shards, t.collections[name].shards);
      }
    }
  }

  lemma ReconfigureInv(s: State, sid: Id, replicas: seq<Id>)
    requires Inv(s) && Exists(s, sid) && ShardOf(s, sid).epoch + 1 < TWO64 && s.assignmentsEpoch + 1 < TWO64
    requires Placement.Registered(s.workers, replicas) && |replicas| <= MAX_REPLICATION_FACTOR
    ensures Inv(Reconfigure(s, sid, replicas))
  {
    var sh := ShardOf(s, sid);
    assert Hosts(s, Home(s, sid), sid);
    PutShardInv(s, sid, sh.(replicas := replicas, epoch := Inc64(sh.epoch)), BumpEpoch(s.assignmentsEpoch));
  }

  // ---------------------------------------------------------------- collection creation

  lemma {:induction false} NewShardsAt(make: (nat, Id) -> Shard, i: nat, first: nat, sid: Id)
    requires first + i < TWO64
    ensures sid in NewShards(make, i, first) <==> first <= sid < first + i
    ensures sid in NewShards(make, i, first) ==> NewShards(make, i, first)[sid] == make(sid - first, sid)
  {
    if i > 0 {
      NewShardsAt(make, i - 1, first, sid);
    }
  }

  lemma PartitionBySlots(m: map<Id, Shard>, first: nat, n: nat, slot: nat -> nat)
    requires forall sid: Id :: sid in m <==> first <= sid < first + n
    requires forall key: nat :: key < TWO64 ==> slot(key) < n
    requires forall key: nat, sid: Id :: key < TWO64 && sid in m ==> (Holds(m, sid, key) <==> sid == first + slot(key))
    ensures Partition(m)
  {
    forall key: nat | key < TWO64
      ensures Covered(m, key)
    {
      assert Holds(m, first + slot(key), key);
    }
  }

  lemma NewShardsPartition(c: Command, n: nat, first: nat, q: KeySpace.Float, outOfRange: nat, replicas: seq<Id>)
    requires c.CreateCollection? && 1 <= n <= KeySpace.MAX_SHARDS && first + n < TWO64
    requires KeySpace.RoundedQuotient(n, q)
    ensures Partition(NewShards(ShardMaker(c, n, KeySpace.RangeSize(q, outOfRange), replicas), n, first))
  {
    var size := KeySpace.RangeSize(q, outOfRange);
    var make := ShardMaker(c, n, size, replicas);
    var m := NewShards(make, n, first);
    var slot := (key: nat) => KeySpace.Slot(n, size, key);
    forall sid: Id
      ensures sid in m <==> first <= sid < first + n
    {
      NewShardsAt(make, n, first, sid);
    }
    forall key: nat | key < TWO64
      ensures slot(key) < n
    {
      KeySpace.RangesPartition(n, q, outOfRange, key, 0);
    }
    forall key: nat, sid: Id | key < TWO64 && sid in m
      ensures Holds(m, sid, key) <==> sid == first + slot(key)
    {
      NewShardsAt(make, n, first, sid);
      KeySpace.RangesPartition(n, q, outOfRange, key, sid - first);
    }
    PartitionBySlots(m, first, n, slot);
  }

  /** Eligibility only lapses while no command is applied. */
  lemma EligibleLapses(ws: map<Id, Worker>, now: int, later: int)
    requires now <= later
    ensures EligibleWorkers(ws, later) <= EligibleWorkers(ws, now)
  {
  }

  /** Workers are counted at `now` and placed in the order they were sorted in at `later`: as many are chosen as the
      replication factor asks for and are still eligible, so one or more exactly if any is. */
  lemma PlacementFits(rf: RepFactor, ws: map<Id, Worker>, now: int, later: int, cs: seq<Id>)
    requires now <= later && Placement.LoadOrder(ws, later, cs) && EligibleWorkers(ws, now) != {}
    ensures var r := Placement.SelectReplicas(ws, cs, Min(rf, |EligibleWorkers(ws, now)|));
      && Distinct(r) && |r| == Min(rf, |EligibleWorkers(ws, later)|) && (1 <= |r| <==> EligibleWorkers(ws, later) != {})
      && (forall id :: id in r ==> id in ws && Eligible(ws[id], later))
  {
    var e := EligibleWorkers(ws, later);
    assert ToSet(cs) == e;
    DistinctCard(cs);
    EligibleLapses(ws, now, later);
    SubsetCard(e, EligibleWorkers(ws, now));
    var actual := Min(rf, |EligibleWorkers(ws, now)|);
    Placement.SelectionFacts(ws, cs, actual);
    var r := Placement.SelectReplicas(ws, cs, actual);
    forall id | id in r
      ensures id in cs
    {
      assert id in ToSet(r);
    }
  }

  /** The shards a new collection starts with. */
  lemma CreatedShards(rf: RepFactor, s: State, cmd: Command, env: Env)
    requires 1 <= s.nextShard && cmd.CreateCollection? && ValidEnv(s, cmd, env) && Headroom(s, cmd)
    requires cmd.name !in s.collections && EligibleWorkers(s.workers, env.now) != {}
    ensures var t := ApplyCreate(rf, s, cmd, env).state;
      && t.collections == s.collections[cmd.name := t.collections[cmd.name]]
      && t == s.(collections := t.collections, nextShard := t.nextShard, assignmentsEpoch := t.assignmentsEpoch)
      && t.nextShard == s.nextShard + ShardCount(cmd.initialShards) && t.assignmentsEpoch == s.assignmentsEpoch + 1
      && t.collections[cmd.name].name == cmd.name && Partition(t.collections[cmd.name].shards)
      && forall sid: Id :: sid in t.collections[cmd.name].shards ==>
           var sh := t.collections[cmd.name].shards[sid];
           && s.nextShard <= sid < t.nextShard && Distinct(sh.replicas)
           && ShardOk(s.workers, t.nextShard, cmd.name, sid, sh)
           && sh.epoch == 1 && sh.leader == 0 && !sh.bootstrapped && sh.bootstrapMembers == sh.replicas
           && sh.dimension == cmd.dimension && sh.distance == cmd.distance && sh.qps == 0.0 && sh.latency == 0.0
           && |sh.replicas| == Min(rf, |EligibleWorkers(s.workers, env.later)|)
  {
    var t := ApplyCreate(rf, s, cmd, env).state;
    var e := EligibleWorkers(s.workers, env.now);
    assert |e| > 0;
    PlacementFits(rf, s.workers, env.now, env.later, env.candidates);
    var replicas := Placement.SelectReplicas(s.workers, env.candidates, Min(rf, |e|));
    var n := ShardCount(cmd.initialShards);
    var size := KeySpace.RangeSize(env.quotient, env.outOfRange);
    var make := ShardMaker(cmd, n, size, replicas);
    var shards := t.collections[cmd.name].shards;
    assert shards == NewShards(make, n, s.nextShard);
    NewShardsPartition(cmd, n, s.nextShard, env.quotient, env.outOfRange, replicas);
    forall sid: Id | sid in shards
      ensures s.nextShard <= sid < t.nextShard && shards[sid] == make(sid - s.nextShard, sid)
    {
      NewShardsAt(make, n, s.nextShard, sid);
    }
  }

  lemma CreateInv(rf: RepFactor, s: State, cmd: Command, env: Env)
    requires Inv(s) && cmd.CreateCollection? && ValidEnv(s, cmd, env) && Headroom(s, cmd)
    ensures Inv(ApplyCreate(rf, s, cmd, env).state)
  {
    if cmd.name !in s.collections && EligibleWorkers(s.workers, env.now) != {} {
      CreatedShards(rf, s, cmd, env);
      CreateView(s, ApplyCreate(rf, s, cmd, env).state, cmd.name);
    }
  }

  lemma CreateView(s: State, t: State, added: string)
    requires Inv(s) && added !in s.collections && added in t.collections
    requires t.collections == s.collections[added := t.collections[added]] && t.workers == s.workers
    requires t.nextWorker == s.nextWorker && t.nextShard >= s.nextShard && t.assignmentsEpoch >= 1
    requires t.rerankers == s.rerankers && t.nextReranker == s.nextReranker
    requires t.collections[added].name == added && Partition(t.collections[added].shards)
    requires forall sid: Id :: sid in t.collections[added].shards ==>
      sid >= s.nextShard && ShardOk(t.workers, t.nextShard, added, sid, t.collections[added].shards[sid])
    ensures Inv(t)
  {
    forall name, sid: Id | Hosts(t, name, sid)
      ensures ShardOk(t.workers, t.nextShard, name, sid, t.collections[name].shards[sid])
      ensures name != added ==> Hosts(s, name, sid) && sid < s.nextShard
    {
      if name != added { assert Hosts(s, name, sid); }
    }
  }

  // ---------------------------------------------------------------- worker updates

  /** A state that differs from `s` in its workers alone, and still knows every replica, keeps the invariant. */
  lemma WorkersInv(s: State, t: State)
    requires Inv(s) && WorkersOk(t) && RerankersOk(t)
    requires t.collections == s.collections && t.nextShard == s.nextShard && t.assignmentsEpoch == s.assignmentsEpoch
    requires 1 <= t.nextWorker && 1 <= t.nextReranker
    requires forall name, sid: Id :: Hosts(s, name, sid) ==>
      Placement.Registered(t.workers, s.collections[name].shards[sid].replicas)
    ensures Inv(t)
  {
    forall name, sid: Id
      ensures Hosts(t, name, sid) <==> Hosts(s, name, sid)
    {
    }
  }

  lemma DeleteInv(s: State, name: string, ae: nat)
    requires Inv(s) && ae >= 1
    ensures Inv(s.(collections := s.collections - {name}, assignmentsEpoch := ae))
  {
    var t := s.(collections := s.collections - {name}, assignmentsEpoch := ae);
    assert forall n, sid: Id :: Hosts(t, n, sid) ==> Hosts(s, n, sid) && n != name;
  }

  // ---------------------------------------------------------------- every command keeps the invariant

  lemma NewWorkerInv(s: State, wk: Worker)
    requires Inv(s) && wk.id == s.nextWorker && s.nextWorker + 1 < TWO64
    requires forall id: Id :: !WorkerAt(s, id, wk.grpcAddr, wk.raftAddr)
    ensures Inv(s.(workers := s.workers[wk.id := wk], nextWorker := s.nextWorker + 1))
  {
    var t := s.(workers := s.workers[wk.id := wk], nextWorker := s.nextWorker + 1);
    forall id | id in s.workers
      ensures !SameAddress(s.workers[id], wk)
    {
      assert !WorkerAt(s, id, wk.grpcAddr, wk.raftAddr);
    }
    WorkersInv(s, t);
  }

  lemma RegisterWorkerInv(s: State, cmd: Command, now: int)
    requires Inv(s) && cmd.RegisterWorker? && Headroom(s, cmd)
    ensures Inv(ApplyRegisterWorker(s, cmd, now).state)
  {
    if exists id: Id :: WorkerAt(s, id, cmd.grpcAddr, cmd.raftAddr) {
      var id: Id :| WorkerAt(s, id, cmd.grpcAddr, cmd.raftAddr) && ApplyRegisterWorker(s, cmd, now).reply == Accepted(id);
      WorkerUpdateInv(s, id, Reregistered(s.workers[id], cmd.role, now));
    } else {
      NewWorkerInv(s, NewWorker(s.nextWorker, cmd, now));
    }
  }

  lemma RegisterRerankerInv(s: State, cmd: Command, now: int)
    requires Inv(s) && cmd.RegisterReranker? && Headroom(s, cmd)
    ensures Inv(ApplyRegisterReranker(s, cmd, now).state)
  {
    if !exists id: Id :: RerankerAt(s, id, cmd.grpcAddr) {
      assert forall id: Id :: id in s.rerankers && s.rerankers[id].grpcAddr == cmd.grpcAddr ==> RerankerAt(s, id, cmd.grpcAddr);
    }
    WorkersInv(s, ApplyRegisterReranker(s, cmd, now).state);
  }

  lemma RemoveWorkerInv(s: State, w: Id)
    requires Inv(s) && !HostsAnyShard(s, w)
    ensures Inv(s.(workers := s.workers - {w}))
  {
    var t := s.(workers := s.workers - {w});
    forall name, sid: Id | Hosts(s, name, sid)
      ensures Placement.Registered(t.workers, s.collections[name].shards[sid].replicas)
    {
      assert w !in s.collections[name].shards[sid].replicas;
    }
    WorkersInv(s, t);
  }

  /** Epochs have room for one more change. */
  ghost predicate EpochRoom(s: State)
  {
    && s.assignmentsEpoch + 1 < TWO64
    && forall name, sid: Id :: Hosts(s, name, sid) ==> s.collections[name].shards[sid].epoch + 1 < TWO64
  }

  /** The counters have room for `k` changes of configuration. */
  ghost predicate RoomFor(s: State, k: nat)
  {
    && s.nextWorker + 1 < TWO64 && s.nextReranker + 1 < TWO64 && s.assignmentsEpoch + k < TWO64
    && forall name, sid: Id :: Hosts(s, name, sid) ==> s.collections[name].shards[sid].epoch + k < TWO64
  }

  lemma RoomIsHeadroom(s: State, cmd: Command, k: nat)
    requires RoomFor(s, k) && k > 0 && !cmd.CreateCollection?
    ensures Headroom(s, cmd)
  {
  }

  /** Reconfiguring a shard moves no shard to another collection. */
  lemma ReconfigureKeepsHomes(s: State, sid: Id, replicas: seq<Id>)
    requires HomesUnique(s) && Exists(s, sid)
    ensures HomesUnique(Reconfigure(s, sid, replicas))
  {
    var t := Reconfigure(s, sid, replicas);
    forall a, b, id: Id | Hosts(t, a, id) && Hosts(t, b, id)
      ensures a == b
    {
      assert Hosts(s, a, id) && Hosts(s, b, id);
    }
  }

  /** A change of configuration takes up the room for one, and moves no shard to another collection. */
  lemma ReconfigureRoom(s: State, sid: Id, replicas: seq<Id>, k: nat)
    requires HomesUnique(s) && Exists(s, sid) && RoomFor(s, k + 1)
    ensures RoomFor(Reconfigure(s, sid, replicas), k) && HomesUnique(Reconfigure(s, sid, replicas))
  {
    var t := Reconfigure(s, sid, replicas);
    ReconfigureKeepsHomes(s, sid, replicas);
    forall name, id: Id | Hosts(t, name, id)
      ensures Hosts(s, name, id) && t.collections[name].shards[id].epoch + k < TWO64
    {
    }
  }

  lemma AddInv(s: State, sid: Id, w: Id, now: int)
    requires Inv(s) && EpochRoom(s)
    ensures Inv(ApplyAdd(s, sid, w, now).state)
  {
    if Exists(s, sid) {
      var replicas := ShardOf(s, sid).replicas;
      if IsHealthy(s.workers, w, now) && |replicas| < MAX_REPLICATION_FACTOR {
        ReconfigureInv(s, sid, replicas + [w]);
      }
    }
  }

  lemma RemoveInv(rf: RepFactor, s: State, sid: Id, w: Id)
    requires Inv(s) && EpochRoom(s)
    ensures Inv(ApplyRemove(rf, s, sid, w).state)
  {
    if Exists(s, sid) {
      var replicas := ShardOf(s, sid).replicas;
      if w in replicas && |replicas| - 1 >= Min(rf, |replicas|) {
        ReconfigureInv(s, sid, Without(replicas, IndexOf(replicas, w)));
      }
    }
  }

  lemma MoveInv(s: State, sid: Id, source: Id, target: Id)
    requires Inv(s) && EpochRoom(s)
    ensures Inv(ApplyMove(s, sid, source, target).state)
  {
    if Exists(s, sid) {
      var replicas := ShardOf(s, sid).replicas;
      if source in replicas && target in s.workers {
        ReconfigureInv(s, sid, replicas[IndexOf(replicas, source) := target]);
      }
    }
  }

  lemma LeaderInv(s: State, sid: Id, leader: Id)
    requires Inv(s)
    ensures Inv(ApplyLeader(s, sid, leader).state)
  {
    if Exists(s, sid) {
      var sh := ShardOf(s, sid).(leader := leader);
      PutShardInv(s, sid, if leader > 0 then sh.(bootstrapped := true, bootstrapMembers := []) else sh, s.assignmentsEpoch);
    }
  }

  lemma MetricsInv(s: State, sid: Id, qps: real, latency: real)
    requires Inv(s)
    ensures Inv(ApplyMetrics(s, sid, qps, latency).state)
  {
    if Exists(s, sid) {
      PutShardInv(s, sid, Measured(ShardOf(s, sid), qps, latency), s.assignmentsEpoch);
    }
  }

  lemma ShardCommandInv(rf: RepFactor, s: State, cmd: Command, env: Env)
    requires Inv(s) && EpochRoom(s)
    requires cmd.UpdateShardLeader? || cmd.UpdateShardMetrics? || cmd.AddShardReplica?
          || cmd.RemoveShardReplica? || cmd.MoveShard?
    ensures Inv(Apply(rf, s, cmd, env).state)
  {
    match cmd
    case UpdateShardLeader(sid, leader) => LeaderInv(s, sid, leader);
    case UpdateShardMetrics(sid, qps, latency) => MetricsInv(s, sid, qps, latency);
    case AddShardReplica(sid, w) => AddInv(s, sid, w, env.now);
    case RemoveShardReplica(sid, w) => RemoveInv(rf, s, sid, w);
    case MoveShard(sid, source, target) => MoveInv(s, sid, source, target);
  }

  lemma WorkerUpdateInv(s: State, w: Id, wk: Worker)
    requires Inv(s) && w in s.workers && wk.id == w && SameAddress(wk, s.workers[w])
    ensures Inv(s.(workers := s.workers[w := wk]))
  {
  }

  /** The remaining commands, which touch neither shards nor collections. */
  lemma NodeCommandInv(rf: RepFactor, s: State, cmd: Command, env: Env)
    requires cmd.RegisterPeer? || cmd.UpdateWorkerHeartbeat? || cmd.UpdateRerankerHeartbeat? || cmd.UpdateWorkerState?
    requires Inv(s)
    ensures Inv(Apply(rf, s, cmd, env).state)
  {
    match cmd
    case UpdateWorkerHeartbeat(w, load, running) =>
      if w in s.workers { WorkerUpdateInv(s, w, HeartbeatWorker(s.workers[w], load, running, env.now)); }
    case UpdateWorkerState(w, st) =>
      if w in s.workers { WorkerUpdateInv(s, w, s.workers[w].(state := st)); }
    case _ => WorkersInv(s, Apply(rf, s, cmd, env).state);
  }

  lemma StepInv(rf: RepFactor, s: State, cmd: Command, env: Env)
    requires Inv(s) && ValidEnv(s, cmd, env) && Headroom(s, cmd)
    ensures Inv(Apply(rf, s, cmd, env).state)
  {
    match cmd
    case RegisterWorker(_, _, _, _, _, _) => RegisterWorkerInv(s, cmd, env.now);
    case RegisterReranker(_, _) => RegisterRerankerInv(s, cmd, env.now);
    case CreateCollection(_, _, _, _) => CreateInv(rf, s, cmd, env);
    case DeleteCollection(name) => DeleteInv(s, name, BumpEpoch(s.assignmentsEpoch));
    case RemoveWorker(w) => if !HostsAnyShard(s, w) { RemoveWorkerInv(s, w); }
    case RegisterPeer(_) => NodeCommandInv(rf, s, cmd, env);
    case UpdateWorkerHeartbeat(_, _, _) => NodeCommandInv(rf, s, cmd, env);
    case UpdateRerankerHeartbeat(_) => NodeCommandInv(rf, s, cmd, env);
    case UpdateWorkerState(_, _) => NodeCommandInv(rf, s, cmd, env);
    case _ => ShardCommandInv(rf, s, cmd, env);
  }

  lemma InitialInv()
    ensures Inv(Initial) && ReplicasDistinct(Initial)
  {
  }

  // ---------------------------------------------------------------- duplicate-free replica lists

  /** A move never lands on a worker that is already a replica. */
  ghost predicate MoveGuard(s: State, cmd: Command)
  {
    cmd.MoveShard? && Exists(s, cmd.shard) && cmd.source in ShardOf(s, cmd.shard).replicas ==>
      cmd.target == cmd.source || cmd.target !in ShardOf(s, cmd.shard).replicas
  }

  lemma WithoutDistinct(xs: seq<Id>, i: nat)
    requires Distinct(xs) && i < |xs|
    ensures Distinct(Without(xs, i)) && xs[i] !in Without(xs, i)
    ensures ToSet(Without(xs, i)) == ToSet(xs) - {xs[i]}
  {
  }

  /** Taking out or replacing one entry leaves the others. */
  lemma OthersRemain(xs: seq<Id>, i: nat, y: Id, x: Id)
    requires i < |xs|
    ensures x in xs && x != xs[i] ==> x in Without(xs, i) && x in xs[i := y]
    ensures x in Without(xs, i) ==> x in xs
  {
    if x in xs && x != xs[i] {
      var k :| 0 <= k < |xs| && xs[k] == x;
      assert Without(xs, i)[if k < i then k else k - 1] == x;
      assert xs[i := y][k] == x;
    }
  }

  lemma ReplaceDistinctIff(xs: seq<Id>, i: nat, y: Id)
    requires Distinct(xs) && i < |xs|
    ensures Distinct(xs[i := y]) <==> y == xs[i] || y !in xs
  {
    if y != xs[i] && y in xs {
      var j :| 0 <= j < |xs| && xs[j] == y;
      assert xs[i := y][i] == xs[i := y][j];
    }
  }

  /** `MoveShard` does not look whether its target already holds the shard: an accepted move keeps the replica
      list free of duplicates exactly when the target was not a replica (or is the source itself). */
  lemma MoveKeepsDistinctIff(s: State, sid: Id, source: Id, target: Id)
    requires Inv(s) && Exists(s, sid) && Distinct(ShardOf(s, sid).replicas)
    requires ApplyMove(s, sid, source, target).reply.Accepted?
    ensures var t := ApplyMove(s, sid, source, target).state;
      && Exists(t, sid)
      && (Distinct(ShardOf(t, sid).replicas) <==> target == source || target !in ShardOf(s, sid).replicas)
  {
    var replicas := ShardOf(s, sid).replicas;
    var t := ApplyMove(s, sid, source, target).state;
    var i := IndexOf(replicas, source);
    ReconfigureView(s, sid, replicas[i := target], sid);
    ReplaceDistinctIff(replicas, i, target);
  }

  lemma ReconfigureView(s: State, sid: Id, replicas: seq<Id>, id: Id)
    requires HomesUnique(s) && Exists(s, sid)
    ensures var t := Reconfigure(s, sid, replicas);
      && (Exists(t, id) <==> Exists(s, id))
      && (Exists(s, id) ==> Home(t, id) == Home(s, id))
      && (Exists(s, id) && id != sid ==> ShardOf(t, id) == ShardOf(s, id))
      && (id == sid ==> ShardOf(t, id) == ShardOf(s, id).(replicas := replicas, epoch := Inc64(ShardOf(s, id).epoch)))
  {
    var sh := ShardOf(s, sid);
    PutView(s, sid, sh.(replicas := replicas, epoch := Inc64(sh.epoch)), BumpEpoch(s.assignmentsEpoch), id);
  }

  /** Lookup after one shard is replaced. */
  lemma PutView(s: State, sid: Id, sh: Shard, ae: nat, id: Id)
    requires HomesUnique(s) && Exists(s, sid)
    ensures var t := PutShard(s, sid, sh).(assignmentsEpoch := ae);
      && (Exists(t, id) <==> Exists(s, id))
      && (Exists(s, id) ==> Home(t, id) == Home(s, id) && ShardOf(t, id) == (if id == sid then sh else ShardOf(s, id)))
  {
    var t := PutShard(s, sid, sh).(assignmentsEpoch := ae);
    forall name
      ensures Hosts(t, name, id) <==> Hosts(s, name, id)
    {
    }
    if Exists(s, id) {
      assert Hosts(s, Home(s, id), id) && Hosts(t, Home(s, id), id);
    }
  }

  /** The view by home: what holds of every shard looked up holds of every shard stored. */
  lemma DistinctByLookup(s: State)
    requires HomesUnique(s)
    ensures ReplicasDistinct(s) <==> (forall sid: Id :: Exists(s, sid) ==> Distinct(ShardOf(s, sid).replicas))
  {
    forall name, sid: Id | Hosts(s, name, sid)
      ensures Exists(s, sid) && ShardOf(s, sid) == s.collections[name].shards[sid]
    {
      HomeIs(s, name, sid);
    }
    assert forall sid: Id :: Exists(s, sid) ==> Hosts(s, Home(s, sid), sid);
  }

  ghost predicate DistinctInv(s: State)
  {
    Inv(s) && EpochRoom(s) && ReplicasDistinct(s)
  }

  lemma AddDistinct(s: State, sid: Id, w: Id, now: int)
    requires DistinctInv(s)
    ensures ReplicasDistinct(ApplyAdd(s, sid, w, now).state)
  {
  }

  lemma RemoveDistinct(rf: RepFactor, s: State, sid: Id, w: Id)
    requires DistinctInv(s)
    ensures ReplicasDistinct(ApplyRemove(rf, s, sid, w).state)
  {
    if ApplyRemove(rf, s, sid, w).state != s {
      RemoveInv(rf, s, sid, w);
      DistinctByLookup(s);
      var replicas := ShardOf(s, sid).replicas;
      WithoutDistinct(replicas, IndexOf(replicas, w));
    }
  }

  lemma MoveDistinct(s: State, sid: Id, source: Id, target: Id)
    requires DistinctInv(s) && MoveGuard(s, MoveShard(sid, source, target))
    ensures ReplicasDistinct(ApplyMove(s, sid, source, target).state)
  {
    if ApplyMove(s, sid, source, target).state != s {
      MoveInv(s, sid, source, target);
      DistinctByLookup(s);
      var replicas := ShardOf(s, sid).replicas;
      ReplaceDistinctIff(replicas, IndexOf(replicas, source), target);
    }
  }

  lemma LeaderDistinct(s: State, sid: Id, leader: Id)
    requires ReplicasDistinct(s)
    ensures ReplicasDistinct(ApplyLeader(s, sid, leader).state)
  {
  }

  lemma MetricsDistinct(s: State, sid: Id, qps: real, latency: real)
    requires ReplicasDistinct(s)
    ensures ReplicasDistinct(ApplyMetrics(s, sid, qps, latency).state)
  {
  }

  lemma CreateDistinct(rf: RepFactor, s: State, cmd: Command, env: Env)
    requires cmd.CreateCollection? && DistinctInv(s) && ValidEnv(s, cmd, env) && Headroom(s, cmd)
    ensures ReplicasDistinct(ApplyCreate(rf, s, cmd, env).state)
  {
    var t := ApplyCreate(rf, s, cmd, env).state;
    if cmd.name !in s.collections && EligibleWorkers(s.workers, env.now) != {} {
      CreatedShards(rf, s, cmd, env);
      forall name, sid: Id | Hosts(t, name, sid)
        ensures Distinct(t.collections[name].shards[sid].replicas)
      {
        if name != cmd.name { assert Hosts(s, name, sid); }
      }
    }
  }

  /** Every command keeps replica lists duplicate-free, given the guard on moves. */
  lemma StepDistinct(rf: RepFactor, s: State, cmd: Command, env: Env)
    requires Inv(s) && ReplicasDistinct(s) && ValidEnv(s, cmd, env) && Headroom(s, cmd) && MoveGuard(s, cmd)
    ensures ReplicasDistinct(Apply(rf, s, cmd, env).state)
  {
    match cmd
    case CreateCollection(_, _, _, _) => CreateDistinct(rf, s, cmd, env);
    case UpdateShardLeader(sid, leader) => LeaderDistinct(s, sid, leader);
    case UpdateShardMetrics(sid, qps, latency) => MetricsDistinct(s, sid, qps, latency);
    case AddShardReplica(sid, w) => AddDistinct(s, sid, w, env.now);
    case RemoveShardReplica(sid, w) => RemoveDistinct(rf, s, sid, w);
    case MoveShard(sid, source, target) => MoveDistinct(s, sid, source, target);
    case _ => FewerShards(rf, s, cmd, env);
  }

  // ---------------------------------------------------------------- shards without replicas

  /** Every shard has a replica. */
  ghost predicate Populated(s: State)
  {
    forall name, sid: Id :: Hosts(s, name, sid) ==> |s.collections[name].shards[sid].replicas| > 0
  }

  /** A creation finds an eligible worker when it counts them, and none when it sorts them. */
  ghost predicate PlacesNothing(s: State, cmd: Command, env: Env)
  {
    && cmd.CreateCollection? && cmd.name !in s.collections
    && EligibleWorkers(s.workers, env.now) != {} && EligibleWorkers(s.workers, env.later) == {}
  }

  /** The shards of an accepted creation have between one and `rf` replicas, none of them twice, if and only if some
      worker is still eligible when the workers are sorted. */
  lemma CreatedReplicasIff(rf: RepFactor, s: State, cmd: Command, env: Env)
    requires Inv(s) && cmd.CreateCollection? && ValidEnv(s, cmd, env) && Headroom(s, cmd)
    requires ApplyCreate(rf, s, cmd, env).reply.Accepted?
    ensures var t := ApplyCreate(rf, s, cmd, env).state;
      && cmd.name in t.collections && t.collections[cmd.name].shards != map[]
      && ((forall sid: Id :: Hosts(t, cmd.name, sid) ==>
             var replicas := t.collections[cmd.name].shards[sid].replicas; Distinct(replicas) && 1 <= |replicas| <= rf)
          <==> EligibleWorkers(s.workers, env.later) != {})
  {
    var t := ApplyCreate(rf, s, cmd, env).state;
    CreatedShards(rf, s, cmd, env);
    assert Covered(t.collections[cmd.name].shards, 0);
    var sid: Id :| Holds(t.collections[cmd.name].shards, sid, 0);
    assert Hosts(t, cmd.name, sid);
  }

  lemma PutPopulated(s: State, sid: Id, sh: Shard, ae: nat)
    requires Populated(s) && Exists(s, sid) && |sh.replicas| > 0
    ensures Populated(PutShard(s, sid, sh).(assignmentsEpoch := ae))
  {
    var t := PutShard(s, sid, sh).(assignmentsEpoch := ae);
    forall name, id: Id | Hosts(t, name, id)
      ensures |t.collections[name].shards[id].replicas| > 0
    {
      assert Hosts(s, name, id);
    }
  }

  /** Commands on one shard leave it a replica: the last one is never removed. */
  lemma ShardCommandPopulated(rf: RepFactor, s: State, cmd: Command, env: Env)
    requires cmd.UpdateShardLeader? || cmd.UpdateShardMetrics? || cmd.AddShardReplica? || cmd.RemoveShardReplica? || cmd.MoveShard?
    requires Inv(s) && Populated(s)
    ensures Populated(Apply(rf, s, cmd, env).state)
  {
    var t := Apply(rf, s, cmd, env).state;
    if t != s {
      assert Hosts(s, Home(s, cmd.shard), cmd.shard);
      PutPopulated(s, cmd.shard, t.collections[Home(s, cmd.shard)].shards[cmd.shard], t.assignmentsEpoch);
    }
  }

  lemma CreatePopulatedIff(rf: RepFactor, s: State, cmd: Command, env: Env)
    requires Inv(s) && Populated(s) && cmd.CreateCollection? && ValidEnv(s, cmd, env) && Headroom(s, cmd)
    ensures Populated(ApplyCreate(rf, s, cmd, env).state) <==> !PlacesNothing(s, cmd, env)
  {
    var t := ApplyCreate(rf, s, cmd, env).state;
    if cmd.name !in s.collections && EligibleWorkers(s.workers, env.now) != {} {
      CreatedShards(rf, s, cmd, env);
      CreatedReplicasIff(rf, s, cmd, env);
      assert Covered(t.collections[cmd.name].shards, 0);
      var sid: Id :| Holds(t.collections[cmd.name].shards, sid, 0);
      assert Hosts(t, cmd.name, sid);
      forall name, id: Id | Hosts(t, name, id) && name != cmd.name
        ensures |t.collections[name].shards[id].replicas| > 0
      {
        assert Hosts(s, name, id);
      }
    }
  }

  /** Where every shard has a replica, a command leaves it so if and only if it is not a creation that places nothing. */
  lemma StepPopulatedIff(rf: RepFactor, s: State, cmd: Command, env: Env)
    requires Inv(s) && Populated(s) && ValidEnv(s, cmd, env) && Headroom(s, cmd)
    ensures Populated(Apply(rf, s, cmd, env).state) <==> !PlacesNothing(s, cmd, env)
  {
    if cmd.CreateCollection? {
      CreatePopulatedIff(rf, s, cmd, env);
    } else if cmd.UpdateShardLeader? || cmd.UpdateShardMetrics? || cmd.AddShardReplica? || cmd.RemoveShardReplica? || cmd.MoveShard? {
      ShardCommandPopulated(rf, s, cmd, env);
    } else {
      FewerShards(rf, s, cmd, env);
    }
  }

  /** The other commands add no shard and change none. */
  lemma FewerShards(rf: RepFactor, s: State, cmd: Command, env: Env)
    requires !cmd.CreateCollection? && !cmd.UpdateShardLeader? && !cmd.UpdateShardMetrics? && !cmd.AddShardReplica?
    requires !cmd.RemoveShardReplica? && !cmd.MoveShard?
    ensures forall name, sid: Id :: Hosts(Apply(rf, s, cmd, env).state, name, sid) ==>
      Hosts(s, name, sid) && Apply(rf, s, cmd, env).state.collections[name].shards[sid] == s.collections[name].shards[sid]
  {
  }
}
