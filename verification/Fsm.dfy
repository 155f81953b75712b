/** The placement driver's state machine, updated in place, against the meaning of each command. */
module Fsm {
  import opened Prelude
  import opened FsmTypes
  import opened FsmModel
  import opened FsmInvariant
  import opened PlacementLoops
  import Placement
  import KeySpace

  /** The position of a replica, found by scanning. */
  method FindIndex(xs: seq<Id>, x: Id) returns (i: int)
    ensures i == IndexOf(xs, x)
  {
    for k := 0 to |xs|
      invariant x !in xs[..k]
    {
      if xs[k] == x {
        return k;
      }
    }
    return -1;
  }

  method CountEligible(ws: map<Id, Worker>, order: seq<Id>, now: int) returns (n: nat)
    requires MapOrder(ws, order)
    ensures n == |EligibleWorkers(ws, now)|
  {
    n := 0;
    ghost var met: seq<Id> := [];
    for k := 0 to |order|
      invariant DistinctPrefix(met, order, k, ws, now) && n == |met|
    {
      assert order[..k + 1] == order[..k] + [order[k]] && order[k] !in order[..k];
      if Eligible(ws[order[k]], now) {
        n := n + 1;
        met := met + [order[k]];
      }
    }
    assert order[..|order|] == order;
    DistinctCard(met);
    assert ToSet(met) == EligibleWorkers(ws, now);
  }

  /** All keys of a map, met in some order. */
  method KeysOf<V>(m: map<Id, V>) returns (keys: seq<Id>)
    ensures Distinct(keys) && forall k: Id :: k in keys <==> k in m
  {
    keys := [];
    var left := m.Keys;
    while left != {}
      invariant left <= m.Keys && Distinct(keys) && forall k: Id :: k in keys <==> k in m.Keys - left
      decreases |left|
    {
      var k :| k in left;
      assert k !in keys;
      keys := keys + [k];
      left := left - {k};
    }
  }

  class PlacementFsm {
    const rf: RepFactor
    var peers: map<string, Peer>
    var workers: map<Id, Worker>
    var rerankers: map<Id, Reranker>
    var collections: map<string, Collection>
    var assignmentsEpoch: nat
    var nextShard: nat
    var nextWorker: nat
    var nextReranker: nat

    ghost function Abs(): State
      reads this
    {
      State(peers, workers, rerankers, collections, assignmentsEpoch, nextShard, nextWorker, nextReranker)
    }

    ghost predicate Valid()
      reads this
    {
      Inv(Abs())
    }

    constructor (rf: RepFactor)
      ensures Abs() == Initial && Valid() && this.rf == rf
    {
      this.rf := rf;
      peers, workers, rerankers, collections := map[], map[], map[], map[];
      assignmentsEpoch, nextShard, nextWorker, nextReranker := 1, 1, 1, 1;
      new;
    }

    /** The collection holding a shard, met first in some order over the collections. */
    method FindShard(sid: Id) returns (home: Option<string>)
      requires HomesUnique(Abs())
      ensures home.Some? <==> Exists(Abs(), sid)
      ensures home.Some? ==> home.value == Home(Abs(), sid) && Hosts(Abs(), home.value, sid)
    {
      var names := collections.Keys;
      while names != {}
        invariant names <= collections.Keys
        invariant forall name :: name in collections.Keys - names ==> sid !in collections[name].shards
        decreases |names|
      {
        var name :| name in names;
        if sid in collections[name].shards {
          HomeIs(Abs(), name, sid);
          return Some(name);
        }
        names := names - {name};
      }
      return None;
    }

    method PutShardInto(name: string, sid: Id, sh: Shard)
      requires HomesUnique(Abs()) && Hosts(Abs(), name, sid)
      modifies this`collections
      ensures Exists(old(Abs()), sid) && Abs() == PutShard(old(Abs()), sid, sh)
    {
      HomeIs(Abs(), name, sid);
      var c := collections[name];
      collections := collections[name := c.(shards := c.shards[sid := sh])];
    }

    /** The global epoch moves to the next value of a 64-bit counter that is never zero. */
    method BumpAssignmentsEpoch()
      modifies this`assignmentsEpoch
      ensures assignmentsEpoch != 0 && assignmentsEpoch == BumpEpoch(old(assignmentsEpoch))
      ensures old(assignmentsEpoch) < TWO64 ==> assignmentsEpoch < TWO64 && (assignmentsEpoch - old(assignmentsEpoch) - 1) % (TWO64 - 1) == 0
      ensures old(assignmentsEpoch) + 1 < TWO64 ==> assignmentsEpoch > old(assignmentsEpoch)
    {
      assignmentsEpoch := Inc64(assignmentsEpoch);
      if assignmentsEpoch == 0 {
        assignmentsEpoch := 1;
      }
    }

    method RegisterWorkerAt(cmd: Command, now: int) returns (reply: Reply)
      requires Valid() && cmd.RegisterWorker?
      modifies this`workers, this`nextWorker
      ensures Outcome(Abs(), reply) == ApplyRegisterWorker(old(Abs()), cmd, now)
    {
      var ids := workers.Keys;
      while ids != {}
        invariant ids <= workers.Keys && unchanged(this)
        invariant forall id :: id in workers.Keys - ids ==> !WorkerAt(Abs(), id, cmd.grpcAddr, cmd.raftAddr)
        decreases |ids|
      {
        var id :| id in ids;
        if workers[id].grpcAddr == cmd.grpcAddr && workers[id].raftAddr == cmd.raftAddr {
          assert WorkerAt(Abs(), id, cmd.grpcAddr, cmd.raftAddr);
          assert forall other: Id :: WorkerAt(Abs(), other, cmd.grpcAddr, cmd.raftAddr) ==>
              SameAddress(Abs().workers[other], Abs().workers[id]);
          workers := workers[id := Reregistered(workers[id], cmd.role, now)];
          return Accepted(id);
        }
        ids := ids - {id};
      }
      assert !exists id: Id :: WorkerAt(Abs(), id, cmd.grpcAddr, cmd.raftAddr);
      var id := nextWorker;
      nextWorker := Inc64(nextWorker);
      workers := workers[id := NewWorker(id, cmd, now)];
      return Accepted(id);
    }

    method RegisterRerankerAt(cmd: Command, now: int) returns (reply: Reply)
      requires Valid() && cmd.RegisterReranker?
      modifies this`rerankers, this`nextReranker
      ensures Outcome(Abs(), reply) == ApplyRegisterReranker(old(Abs()), cmd, now)
    {
      var ids := rerankers.Keys;
      while ids != {}
        invariant ids <= rerankers.Keys && unchanged(this)
        invariant forall id :: id in rerankers.Keys - ids ==> !RerankerAt(Abs(), id, cmd.grpcAddr)
        decreases |ids|
      {
        var id :| id in ids;
        if rerankers[id].grpcAddr == cmd.grpcAddr {
          assert RerankerAt(Abs(), id, cmd.grpcAddr);
          var r := rerankers[id];
          rerankers := rerankers[id := r.(lastHeartbeat := now, role := if cmd.role != "" then cmd.role else r.role)];
          return Accepted(id);
        }
        ids := ids - {id};
      }
      assert !exists id: Id :: RerankerAt(Abs(), id, cmd.grpcAddr);
      var id := nextReranker;
      nextReranker := Inc64(nextReranker);
      rerankers := rerankers[id := Reranker(id, cmd.grpcAddr, if cmd.role == "" then "rerank" else cmd.role, now)];
      return Accepted(id);
    }

    /** The shards of a new collection, under ids allocated one by one. */
    method MakeShards(cmd: Command, n: nat, size: nat, candidates: seq<Id>, actual: nat) returns (shards: map<Id, Shard>)
      requires cmd.CreateCollection? && nextShard + n < TWO64
      modifies this`nextShard
      ensures nextShard == Advance(old(nextShard), n)
      ensures shards == NewShards(ShardMaker(cmd, n, size, Placement.SelectReplicas(workers, candidates, actual)), n, old(nextShard))
    {
      ghost var make := ShardMaker(cmd, n, size, Placement.SelectReplicas(workers, candidates, actual));
      shards := map[];
      for i := 0 to n
        invariant shards == NewShards(make, i, old(nextShard)) && nextShard == Advance(old(nextShard), i)
      {
        var sid := nextShard;
        nextShard := Inc64(nextShard);
        var replicas := SelectReplicasLoop(workers, candidates, actual);
        shards := shards[sid := NewShard(cmd, i, n, sid, size, replicas)];
      }
    }

    method CreateCollectionWith(cmd: Command, now: int, later: int, order: seq<Id>, quotient: KeySpace.Float, outOfRange: nat)
      returns (reply: Reply, ghost env: Env)
      requires cmd.CreateCollection? && MapOrder(workers, order) && Headroom(Abs(), cmd)
      modifies this`collections, this`nextShard, this`assignmentsEpoch
      ensures env.now == now && env.later == later && env.quotient == quotient && env.outOfRange == outOfRange
      ensures Placement.LoadOrder(old(workers), later, env.candidates)
      ensures Outcome(Abs(), reply) == ApplyCreate(rf, old(Abs()), cmd, env)
    {
      var eligible := CountEligible(workers, order, now);
      var candidates := WorkersSortedByLoad(workers, order, later);
      env := Env(now, later, candidates, quotient, outOfRange);
      if cmd.name in collections || eligible == 0 {
        return Refused, env;
      }
      var actual := if eligible < rf then eligible else rf;
      var n := ShardCount(cmd.initialShards);
      var size := KeySpace.RangeSize(quotient, outOfRange);
      var shards := MakeShards(cmd, n, size, candidates, actual);
      collections := collections[cmd.name := Collection(cmd.name, cmd.dimension, cmd.distance, shards)];
      BumpAssignmentsEpoch();
      return Accepted(1), env;
    }

    method SetLeader(sid: Id, leader: Id)
      requires HomesUnique(Abs())
      modifies this`collections
      ensures Abs() == ApplyLeader(old(Abs()), sid, leader).state
    {
      var home := FindShard(sid);
      if home.Some? {
        var sh := collections[home.value].shards[sid].(leader := leader);
        if leader > 0 {
          sh := sh.(bootstrapped := true, bootstrapMembers := []);
        }
        PutShardInto(home.value, sid, sh);
      }
    }

    method AddReplica(sid: Id, w: Id, now: int) returns (reply: Reply)
      requires HomesUnique(Abs())
      modifies this`collections, this`assignmentsEpoch
      ensures Outcome(Abs(), reply) == ApplyAdd(old(Abs()), sid, w, now)
    {
      var home := FindShard(sid);
      if home.None? || w !in workers || workers[w].state != Ready || now - workers[w].lastHeartbeat >= WORKER_TIMEOUT {
        return Refused;
      }
      var sh := collections[home.value].shards[sid];
      var i := FindIndex(sh.replicas, w);
      if i >= 0 {
        return Accepted(0);
      }
      if |sh.replicas| >= MAX_REPLICATION_FACTOR {
        return Refused;
      }
      PutShardInto(home.value, sid, sh.(replicas := sh.replicas + [w], epoch := Inc64(sh.epoch)));
      BumpAssignmentsEpoch();
      return Accepted(0);
    }

    method RemoveReplica(sid: Id, w: Id) returns (reply: Reply)
      requires HomesUnique(Abs())
      modifies this`collections, this`assignmentsEpoch
      ensures Outcome(Abs(), reply) == ApplyRemove(rf, old(Abs()), sid, w)
    {
      var home := FindShard(sid);
      if home.None? {
        return Refused;
      }
      var sh := collections[home.value].shards[sid];
      var i := FindIndex(sh.replicas, w);
      if i == -1 {
        return Refused;
      }
      var minAllowed: int := rf;
      if |sh.replicas| < minAllowed {
        minAllowed := |sh.replicas|;
      }
      if |sh.replicas| - 1 < minAllowed {
        return Refused;
      }
      PutShardInto(home.value, sid, sh.(replicas := sh.replicas[..i] + sh.replicas[i + 1..], epoch := Inc64(sh.epoch)));
      BumpAssignmentsEpoch();
      return Accepted(0);
    }

    method MoveReplica(sid: Id, source: Id, target: Id) returns (reply: Reply)
      requires HomesUnique(Abs())
      modifies this`collections, this`assignmentsEpoch
      ensures Outcome(Abs(), reply) == ApplyMove(old(Abs()), sid, source, target)
    {
      var home := FindShard(sid);
      if home.None? {
        return Refused;
      }
      var sh := collections[home.value].shards[sid];
      var i := FindIndex(sh.replicas, source);
      if i < 0 || target !in workers {
        return Refused;
      }
      PutShardInto(home.value, sid, sh.(replicas := sh.replicas[i := target], epoch := Inc64(sh.epoch)));
      BumpAssignmentsEpoch();
      return Accepted(1);
    }

    /** Whether some shard still has a replica on the worker. */
    method WorkerHasShard(w: Id) returns (has: bool)
      ensures has <==> HostsAnyShard(Abs(), w)
    {
      var names := collections.Keys;
      while names != {}
        invariant names <= collections.Keys
        invariant forall name, sid: Id :: Hosts(Abs(), name, sid) && name !in names ==> w !in collections[name].shards[sid].replicas
        decreases |names|
      {
        var name :| name in names;
        var ids := collections[name].shards.Keys;
        while ids != {}
          invariant ids <= collections[name].shards.Keys
          invariant forall sid: Id :: sid in collections[name].shards && sid !in ids ==> w !in collections[name].shards[sid].replicas
          decreases |ids|
        {
          var sid :| sid in ids;
          var i := FindIndex(collections[name].shards[sid].replicas, w);
          if i >= 0 {
            assert Hosts(Abs(), name, sid);
            return true;
          }
          ids := ids - {sid};
        }
        names := names - {name};
      }
      return false;
    }

    method UnregisterWorker(w: Id) returns (reply: Reply)
      modifies this`workers
      ensures Outcome(Abs(), reply) == ApplyRemoveWorker(old(Abs()), w)
    {
      var has := WorkerHasShard(w);
      if w !in workers || has {
        return Refused;
      }
      workers := workers - {w};
      return Accepted(0);
    }

    /** Applying a committed log entry does what the command means, and keeps the invariant. */
    method Update(cmd: Command, now: int, later: int, order: seq<Id>, quotient: KeySpace.Float, outOfRange: nat)
      returns (reply: Reply, ghost env: Env)
      requires Valid() && Headroom(Abs(), cmd) && MapOrder(workers, order) && now <= later
      requires cmd.CreateCollection? ==> KeySpace.RoundedQuotient(ShardCount(cmd.initialShards), quotient)
      modifies this
      ensures Valid() && ValidEnv(old(Abs()), cmd, env) && env.now == now && env.later == later
      ensures Outcome(Abs(), reply) == Apply(rf, old(Abs()), cmd, env)
    {
      ghost var before := Abs();
      env := Env(now, later, [], quotient, outOfRange);
      if cmd.CreateCollection? {
        reply, env := CreateCollectionWith(cmd, now, later, order, quotient, outOfRange);
      } else {
        reply := UpdateOther(cmd, now, env);
      }
      StepInv(rf, before, cmd, env);
    }

    method UpdateOther(cmd: Command, now: int, ghost env: Env) returns (reply: Reply)
      requires Valid() && !cmd.CreateCollection? && env.now == now
      modifies this
      ensures Outcome(Abs(), reply) == Apply(rf, old(Abs()), cmd, env)
    {
      reply := Accepted(0);
      match cmd
      case RegisterPeer(p) =>
        peers := peers[p.id := p];
      case RegisterWorker(_, _, _, _, _, _) =>
        reply := RegisterWorkerAt(cmd, now);
      case RegisterReranker(_, _) =>
        reply := RegisterRerankerAt(cmd, now);
      case DeleteCollection(name) =>
        if name == "" || name !in collections {
          reply := Refused;
        } else {
          collections := collections - {name};
          BumpAssignmentsEpoch();
          reply := Accepted(1);
        }
      case UpdateWorkerHeartbeat(w, load, running) =>
        if w in workers {
          workers := workers[w := HeartbeatWorker(workers[w], load, running, now)];
        }
      case UpdateRerankerHeartbeat(r) =>
        if r in rerankers {
          rerankers := rerankers[r := rerankers[r].(lastHeartbeat := now)];
        }
      case UpdateWorkerState(w, st) =>
        if w !in workers {
          reply := Refused;
        } else {
          workers := workers[w := workers[w].(state := st)];
        }
      case RemoveWorker(w) =>
        reply := UnregisterWorker(w);
      case UpdateShardLeader(sid, leader) =>
        SetLeader(sid, leader);
      case UpdateShardMetrics(sid, qps, latency) =>
        var home := FindShard(sid);
        if home.Some? {
          PutShardInto(home.value, sid, Measured(collections[home.value].shards[sid], qps, latency));
        }
      case MoveShard(sid, source, target) =>
        reply := MoveReplica(sid, source, target);
      case AddShardReplica(sid, w) =>
        reply := AddReplica(sid, w, now);
      case RemoveShardReplica(sid, w) =>
        reply := RemoveReplica(sid, w);
    }
  }
}
