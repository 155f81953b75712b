/** The reconciler's loops, against what a pass means. */
module Reconciler {
  import opened Prelude
  import opened FsmTypes
  import opened FsmModel
  import opened FsmInvariant
  import opened Fsm
  import opened Reconcile

  method CountHealthy(ws: map<Id, Worker>, replicas: seq<Id>, now: int) returns (n: nat)
    ensures n == HealthyIn(ws, replicas, now)
  {
    n := 0;
    for k := 0 to |replicas|
      invariant n == HealthyIn(ws, replicas[..k], now)
    {
      assert replicas[..k + 1][..k] == replicas[..k];
      if replicas[k] in ws && ws[replicas[k]].state == Ready && now - ws[replicas[k]].lastHeartbeat < WORKER_TIMEOUT {
        n := n + 1;
      }
    }
    assert replicas[..|replicas|] == replicas;
  }

  method FindCandidates(healthy: seq<Id>, replicas: seq<Id>) returns (candidates: seq<Id>)
    ensures candidates == Candidates(healthy, replicas)
  {
    candidates := [];
    for k := 0 to |healthy|
      invariant candidates == Candidates(healthy[..k], replicas)
    {
      assert healthy[..k + 1][..k] == healthy[..k];
      var hasShard := false;
      for j := 0 to |replicas|
        invariant hasShard <==> healthy[k] in replicas[..j]
      {
        if replicas[j] == healthy[k] {
          hasShard := true;
        }
      }
      assert replicas[..|replicas|] == replicas;
      if !hasShard {
        candidates := candidates + [healthy[k]];
      }
    }
    assert healthy[..|healthy|] == healthy;
  }

  class Reconciler {
    const fsm: PlacementFsm
    const maxRepairs: int

    constructor (fsm: PlacementFsm, maxRepairs: int)
      ensures this.fsm == fsm && this.maxRepairs == maxRepairs
    {
      this.fsm, this.maxRepairs := fsm, maxRepairs;
    }

    method AddShardReplicas(sid: Id, ws: seq<Id>, now: int)
      requires HomesUnique(fsm.Abs()) && Exists(fsm.Abs(), sid) && Addable(fsm.Abs(), sid, ws, now)
      modifies fsm`collections, fsm`assignmentsEpoch
      ensures fsm.Abs() == AddAll(old(fsm.Abs()), sid, ws, now)
    {
      ghost var s := fsm.Abs();
      for k := 0 to |ws|
        invariant fsm.Abs() == AddAll(s, sid, ws[..k], now) && HomesUnique(fsm.Abs())
      {
        assert ws[..k + 1][..k] == ws[..k];
        AddAllTurns(s, sid, ws[..k + 1], now);
        var _ := fsm.AddReplica(sid, ws[k], now);
      }
      assert ws[..|ws|] == ws;
    }

    /** The workers to add to one shard. */
    method PlanAdditions(sid: Id, healthy: seq<Id>, now: int) returns (add: seq<Id>)
      requires HomesUnique(fsm.Abs()) && Exists(fsm.Abs(), sid)
      ensures add == Additions(fsm.rf, fsm.workers, ReplicasOf(fsm.Abs(), sid), healthy, now)
    {
      var home := fsm.FindShard(sid);
      var replicas := fsm.collections[home.value].shards[sid].replicas;
      var existing := CountHealthy(fsm.workers, replicas, now);
      var needed := fsm.rf - existing;
      var slots := MAX_REPLICATION_FACTOR - |replicas|;
      if needed <= 0 || slots <= 0 {
        return [];
      }
      if needed > slots {
        needed := slots;
      }
      var candidates := FindCandidates(healthy, replicas);
      add := [];
      var i := 0;
      while i < needed && i < |candidates|
        invariant 0 <= i <= needed && i <= |candidates| && add == candidates[..i]
      {
        add := add + [candidates[i]];
        i := i + 1;
      }
    }

    /** Repairs as many of the shards as the limit allows, exactly as the meaning of a repair says. */
    method RepairUnderReplicatedShards(shards: seq<Id>, healthy: seq<Id>, now: int)
      requires Plannable(fsm.Abs(), shards, healthy, now)
      modifies fsm`collections, fsm`assignmentsEpoch
      ensures fsm.Abs() == Repair(fsm.rf, old(fsm.Abs()), shards, healthy, 0, maxRepairs, now)
    {
      ghost var goal := Repair(fsm.rf, fsm.Abs(), shards, healthy, 0, maxRepairs, now);
      assert shards[0..] == shards;
      var repaired := 0;
      for k := 0 to |shards|
        invariant Plannable(fsm.Abs(), shards[k..], healthy, now) && repaired >= 0
        invariant goal == Repair(fsm.rf, fsm.Abs(), shards[k..], healthy, repaired, maxRepairs, now)
      {
        RepairHead(fsm.rf, fsm.Abs(), shards[k..], healthy, now);
        AdditionsFit(fsm.rf, fsm.Abs(), shards[k], healthy, now);
        assert shards[k..][0] == shards[k] && shards[k..][1..] == shards[k + 1..];
        var add := PlanAdditions(shards[k], healthy, now);
        if add != [] {
          AddShardReplicas(shards[k], add, now);
          repaired := repaired + 1;
          if repaired >= maxRepairs {
            return;
          }
        }
      }
    }

    /** The shards with a replica on a worker. */
    method ShardsOnWorker(w: Id) returns (shards: seq<Id>)
      ensures forall sid: Id :: sid in shards <==> exists name :: Hosts(fsm.Abs(), name, sid) && w in fsm.collections[name].shards[sid].replicas
    {
      shards := [];
      var names := fsm.collections.Keys;
      while names != {}
        invariant names <= fsm.collections.Keys
        invariant forall sid: Id :: sid in shards <==> exists name :: name !in names && Hosts(fsm.Abs(), name, sid) && w in fsm.collections[name].shards[sid].replicas
        decreases |names|
      {
        var name :| name in names;
        var ids := KeysOf(fsm.collections[name].shards);
        ghost var before := shards;
        for k := 0 to |ids|
          invariant forall sid: Id :: sid in shards <==> sid in before || (sid in ids[..k] && w in fsm.collections[name].shards[sid].replicas)
        {
          var i := FindIndex(fsm.collections[name].shards[ids[k]].replicas, w);
          if i >= 0 {
            shards := shards + [ids[k]];
          }
        }
        names := names - {name};
      }
    }

    /** Drops replicas of dead workers, worker by worker. */
    method CleanupDeadReplicas(dead: seq<Id>, now: int) returns (ghost pairs: seq<(Id, Id)>)
      requires HomesUnique(fsm.Abs()) && forall k :: 0 <= k < |dead| ==> Dead(fsm.workers, dead[k], now)
      modifies fsm`collections, fsm`assignmentsEpoch
      ensures forall k :: 0 <= k < |pairs| ==> Dead(fsm.workers, pairs[k].0, now)
      ensures forall k, sid: Id :: 0 <= k < |dead| && dead[k] in ReplicasOf(old(fsm.Abs()), sid) ==> (dead[k], sid) in pairs
      ensures fsm.Abs() == CleanAll(fsm.rf, old(fsm.Abs()), pairs, now)
    {
      ghost var s := fsm.Abs();
      pairs := [];
      for k := 0 to |dead|
        invariant CleanedBy(s, pairs, now)
        invariant forall j, sid: Id :: 0 <= j < k && dead[j] in ReplicasOf(s, sid) ==> (dead[j], sid) in pairs
      {
        pairs := CleanupWorker(dead[k], now, s, pairs);
      }
    }

    /** The state is what cleaning up `pairs` of dead workers makes of `s`. */
    ghost predicate CleanedBy(s: State, pairs: seq<(Id, Id)>, now: int)
      reads fsm
    {
      && fsm.Abs() == CleanAll(fsm.rf, s, pairs, now) && HomesUnique(fsm.Abs()) && fsm.workers == s.workers
      && forall k :: 0 <= k < |pairs| ==> Dead(s.workers, pairs[k].0, now)
    }

    method CleanupWorker(w: Id, now: int, ghost s: State, ghost done: seq<(Id, Id)>) returns (ghost pairs: seq<(Id, Id)>)
      requires HomesUnique(s) && CleanedBy(s, done, now) && Dead(s.workers, w, now)
      modifies fsm`collections, fsm`assignmentsEpoch
      ensures CleanedBy(s, pairs, now) && done <= pairs
      ensures forall sid: Id :: w in ReplicasOf(s, sid) ==> (w, sid) in pairs
    {
      pairs := done;
      var shards := ShardsOnWorker(w);
      LookedAt(s, w, now, done, shards);
      for j := 0 to |shards|
        invariant CleanedBy(s, pairs, now) && done <= pairs
        invariant forall i :: 0 <= i < j ==> (w, shards[i]) in pairs
      {
        pairs := CleanNext(w, shards[j], now, s, pairs);
      }
    }

    method CleanNext(w: Id, sid: Id, now: int, ghost s: State, ghost done: seq<(Id, Id)>) returns (ghost pairs: seq<(Id, Id)>)
      requires CleanedBy(s, done, now) && Dead(s.workers, w, now)
      modifies fsm`collections, fsm`assignmentsEpoch
      ensures CleanedBy(s, pairs, now) && pairs == done + [(w, sid)]
    {
      CleanReplica(w, sid, now, s);
      pairs := done + [(w, sid)];
      assert pairs[..|done|] == done;
    }

    /** A shard the worker held at the start was looked at for it, or still has it. */
    lemma LookedAt(s: State, w: Id, now: int, done: seq<(Id, Id)>, shards: seq<Id>)
      requires HomesUnique(s) && CleanedBy(s, done, now)
      requires forall sid: Id :: (exists name :: Hosts(fsm.Abs(), name, sid) && w in fsm.collections[name].shards[sid].replicas) ==> sid in shards
      ensures forall sid: Id :: w in ReplicasOf(s, sid) ==> (w, sid) in done || sid in shards
    {
      forall sid: Id | w in ReplicasOf(s, sid) && (w, sid) !in done
        ensures sid in shards
      {
        CleanKeepsOthers(fsm.rf, s, done, now, w, sid);
        assert Hosts(fsm.Abs(), Home(fsm.Abs(), sid), sid);
      }
    }

    method CleanReplica(w: Id, sid: Id, now: int, ghost s: State)
      requires HomesUnique(fsm.Abs()) && fsm.workers == s.workers && Dead(s.workers, w, now)
      modifies fsm`collections, fsm`assignmentsEpoch
      ensures fsm.Abs() == Clean(fsm.rf, old(fsm.Abs()), w, sid, now) && HomesUnique(fsm.Abs()) && fsm.workers == s.workers
    {
      CleanOne(fsm.rf, fsm.Abs(), w, sid, now);
      var home := fsm.FindShard(sid);
      if home.Some? {
        var replicas := fsm.collections[home.value].shards[sid].replicas;
        var healthy := CountHealthy(fsm.workers, replicas, now);
        if |replicas| > fsm.rf && healthy >= fsm.rf {
          var _ := fsm.RemoveReplica(sid, w);
        }
      }
    }

    /** Unregisters dead workers that hold no shard. */
    method CleanupDeadWorkers(dead: seq<Id>)
      modifies fsm`workers
      ensures fsm.Abs() == Purge(old(fsm.Abs()), dead)
    {
      ghost var s := fsm.Abs();
      for k := 0 to |dead|
        invariant fsm.Abs() == Purge(s, dead[..k])
      {
        assert dead[..k + 1][..k] == dead[..k];
        var has := fsm.WorkerHasShard(dead[k]);
        if !has {
          var _ := fsm.UnregisterWorker(dead[k]);
        }
      }
      assert dead[..|dead|] == dead;
    }

    method HealthyWorkers(now: int) returns (healthy: seq<Id>)
      ensures ListsHealthy(fsm.workers, healthy, now)
    {
      var ids := KeysOf(fsm.workers);
      healthy := [];
      for k := 0 to |ids|
        invariant Distinct(healthy) && forall w: Id :: w in healthy <==> w in ids[..k] && IsHealthy(fsm.workers, w, now)
      {
        assert ids[k] !in ids[..k];
        if fsm.workers[ids[k]].state == Ready && now - fsm.workers[ids[k]].lastHeartbeat < WORKER_TIMEOUT {
          healthy := healthy + [ids[k]];
        }
      }
    }

    method DeadWorkers(now: int) returns (dead: seq<Id>)
      ensures forall k :: 0 <= k < |dead| ==> Dead(fsm.workers, dead[k], now)
      ensures forall w: Id :: Dead(fsm.workers, w, now) ==> w in dead
    {
      var ids := KeysOf(fsm.workers);
      dead := [];
      for k := 0 to |ids|
        invariant forall w: Id :: w in dead <==> w in ids[..k] && Dead(fsm.workers, w, now)
      {
        if now - fsm.workers[ids[k]].lastHeartbeat >= WORKER_CLEANUP_TIMEOUT {
          dead := dead + [ids[k]];
        }
      }
    }

    /** The under-replicated shards of one collection, added to those met before. */
    method UnderReplicatedIn(name: string, before: seq<Id>, now: int) returns (shards: seq<Id>)
      requires HomesUnique(fsm.Abs()) && name in fsm.collections && Distinct(before)
      requires forall sid: Id :: sid in before ==> !Hosts(fsm.Abs(), name, sid)
      ensures Distinct(shards)
      ensures forall sid: Id :: sid in shards <==> sid in before || (Hosts(fsm.Abs(), name, sid) && UnderReplicated(fsm.rf, fsm.Abs(), sid, now))
    {
      var ids := KeysOf(fsm.collections[name].shards);
      shards := before;
      for k := 0 to |ids|
        invariant Distinct(shards)
        invariant forall sid: Id :: sid in shards <==> sid in before || (sid in ids[..k] && UnderReplicated(fsm.rf, fsm.Abs(), sid, now))
      {
        assert ids[k] in ids && ids[k] !in ids[..k] && Hosts(fsm.Abs(), name, ids[k]);
        HomeIs(fsm.Abs(), name, ids[k]);
        var healthy := CountHealthy(fsm.workers, fsm.collections[name].shards[ids[k]].replicas, now);
        if healthy < fsm.rf {
          shards := shards + [ids[k]];
        }
      }
      assert ids[..|ids|] == ids;
    }

    method UnderReplicatedShards(now: int) returns (shards: seq<Id>)
      requires HomesUnique(fsm.Abs())
      ensures ListsShards(fsm.rf, fsm.Abs(), shards, now)
    {
      shards := [];
      var names := fsm.collections.Keys;
      while names != {}
        invariant names <= fsm.collections.Keys && Distinct(shards)
        invariant forall sid: Id :: sid in shards <==>
            UnderReplicated(fsm.rf, fsm.Abs(), sid, now) && Home(fsm.Abs(), sid) !in names
        decreases |names|
      {
        var name :| name in names;
        shards := UnderReplicatedIn(name, shards, now);
        names := names - {name};
      }
    }

    /** One reconciliation pass is a pass, in orders of its own choosing. */
    method Reconcile(now: int) returns (ghost o: Orders)
      requires HomesUnique(fsm.Abs())
      modifies fsm`collections, fsm`assignmentsEpoch, fsm`workers
      ensures ValidOrders(fsm.rf, old(fsm.Abs()), o, now) && o.limit == maxRepairs
      ensures fsm.Abs() == Pass(fsm.rf, old(fsm.Abs()), o, now)
    {
      ghost var s := fsm.Abs();
      var shards := UnderReplicatedShards(now);
      var dead := DeadWorkers(now);
      var healthy := HealthyWorkers(now);
      assert forall k :: 0 <= k < |shards| ==> UnderReplicated(fsm.rf, s, shards[k], now);
      RepairUnderReplicatedShards(shards, healthy, now);
      ghost var _ := RepairRuns(fsm.rf, s, shards, healthy, 0, maxRepairs, now);
      ghost var pairs := CleanupDeadReplicas(dead, now);
      CleanupDeadWorkers(dead);
      o := Orders(shards, healthy, pairs, dead, maxRepairs);
    }
  }
}
