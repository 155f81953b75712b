/** The reconciliation pass: repairing under-replicated shards, then dropping dead replicas and dead workers. */
module Reconcile {
  import opened Prelude
  import opened FsmTypes
  import opened FsmModel
  import opened FsmInvariant

  // ---------------------------------------------------------------- what a pass looks at

  ghost function ReplicasOf(s: State, sid: Id): seq<Id>
  {
    if Exists(s, sid) then ShardOf(s, sid).replicas else []
  }

  /** How many entries of a replica list are healthy workers. */
  function HealthyIn(ws: map<Id, Worker>, replicas: seq<Id>, now: int): nat
  {
    if replicas == [] then 0
    else HealthyIn(ws, replicas[..|replicas| - 1], now) + if IsHealthy(ws, replicas[|replicas| - 1], now) then 1 else 0
  }

  /** Healthy workers, in the order they were met, that do not hold the shard. */
  function Candidates(healthy: seq<Id>, replicas: seq<Id>): seq<Id>
  {
    if healthy == [] then []
    else
      var front := Candidates(healthy[..|healthy| - 1], replicas);
      if healthy[|healthy| - 1] in replicas then front else front + [healthy[|healthy| - 1]]
  }

  /** The replicas a repair adds to a shard with these replicas. */
  function Additions(rf: RepFactor, ws: map<Id, Worker>, replicas: seq<Id>, healthy: seq<Id>, now: int): seq<Id>
  {
    var missing := rf - HealthyIn(ws, replicas, now);
    var slots := MAX_REPLICATION_FACTOR - |replicas|;
    if missing <= 0 || slots <= 0 then []
    else
      var candidates := Candidates(healthy, replicas);
      candidates[..Min(Min(missing, slots), |candidates|)]
  }

  predicate Dead(ws: map<Id, Worker>, w: Id, now: int)
  {
    w in ws && now - ws[w].lastHeartbeat >= WORKER_CLEANUP_TIMEOUT
  }

  ghost predicate UnderReplicated(rf: RepFactor, s: State, sid: Id, now: int)
  {
    Exists(s, sid) && HealthyIn(s.workers, ReplicasOf(s, sid), now) < rf
  }

  ghost predicate Spare(s: State, sid: Id, w: Id, now: int)
  {
    IsHealthy(s.workers, w, now) && w !in ReplicasOf(s, sid)
  }

  /** Under-replicated, with a free slot and a healthy worker to put in it. */
  ghost predicate Repairable(rf: RepFactor, s: State, sid: Id, now: int)
  {
    UnderReplicated(rf, s, sid, now) && |ReplicasOf(s, sid)| < MAX_REPLICATION_FACTOR && exists w: Id :: Spare(s, sid, w, now)
  }

  // ---------------------------------------------------------------- what a pass does

  ghost function AddAll(s: State, sid: Id, ws: seq<Id>, now: int): State
  {
    if ws == [] then s else ApplyAdd(AddAll(s, sid, ws[..|ws| - 1], now), sid, ws[|ws| - 1], now).state
  }

  /** Repairs in list order; the limit is looked at only after a proposal. */
  ghost function Repair(rf: RepFactor, s: State, shards: seq<Id>, healthy: seq<Id>, done: nat, limit: int, now: int): State
    decreases |shards|
  {
    if shards == [] then s
    else
      var add := Additions(rf, s.workers, ReplicasOf(s, shards[0]), healthy, now);
      if add == [] then Repair(rf, s, shards[1..], healthy, done, limit, now)
      else if done + 1 >= limit then AddAll(s, shards[0], add, now)
      else Repair(rf, AddAll(s, shards[0], add, now), shards[1..], healthy, done + 1, limit, now)
  }

  /** A dead replica goes once the shard has more replicas than it needs, enough of them healthy. */
  ghost function Clean(rf: RepFactor, s: State, w: Id, sid: Id, now: int): State
  {
    if |ReplicasOf(s, sid)| <= rf || HealthyIn(s.workers, ReplicasOf(s, sid), now) < rf then s
    else ApplyRemove(rf, s, sid, w).state
  }

  ghost function CleanAll(rf: RepFactor, s: State, pairs: seq<(Id, Id)>, now: int): State
  {
    if pairs == [] then s
    else
      var last := pairs[|pairs| - 1];
      Clean(rf, CleanAll(rf, s, pairs[..|pairs| - 1], now), last.0, last.1, now)
  }

  ghost function Purge(s: State, dead: seq<Id>): State
  {
    if dead == [] then s
    else
      var t, w := Purge(s, dead[..|dead| - 1]), dead[|dead| - 1];
      if HostsAnyShard(t, w) then t else ApplyRemoveWorker(t, w).state
  }

  /** The orders in which one pass meets shards and workers: under-replicated shards, healthy workers, (dead worker,
      shard) pairs, dead workers; and its limit on repairs. */
  datatype Orders = Orders(shards: seq<Id>, healthy: seq<Id>, pairs: seq<(Id, Id)>, dead: seq<Id>, limit: int)

  ghost predicate ListsHealthy(ws: map<Id, Worker>, healthy: seq<Id>, now: int)
  {
    Distinct(healthy) && forall w: Id :: w in healthy <==> IsHealthy(ws, w, now)
  }

  ghost predicate ListsShards(rf: RepFactor, s: State, shards: seq<Id>, now: int)
  {
    Distinct(shards) && forall sid: Id :: sid in shards <==> UnderReplicated(rf, s, sid, now)
  }

  ghost predicate ListsDead(ws: map<Id, Worker>, o: Orders, now: int)
  {
    && (forall k :: 0 <= k < |o.pairs| ==> Dead(ws, o.pairs[k].0, now))
    && (forall w: Id :: w in o.dead <==> Dead(ws, w, now))
  }

  /** Every shard of every dead worker is looked at. */
  ghost predicate Covers(s: State, pairs: seq<(Id, Id)>, now: int)
  {
    forall w: Id, sid: Id :: Dead(s.workers, w, now) && w in ReplicasOf(s, sid) ==> (w, sid) in pairs
  }

  ghost predicate ValidOrders(rf: RepFactor, s: State, o: Orders, now: int)
  {
    && ListsShards(rf, s, o.shards, now) && ListsHealthy(s.workers, o.healthy, now) && ListsDead(s.workers, o, now)
    && Covers(Repair(rf, s, o.shards, o.healthy, 0, o.limit, now), o.pairs, now)
  }

  ghost function Pass(rf: RepFactor, s: State, o: Orders, now: int): State
  {
    Purge(CleanAll(rf, Repair(rf, s, o.shards, o.healthy, 0, o.limit, now), o.pairs, now), o.dead)
  }

  // ---------------------------------------------------------------- counting healthy replicas

  lemma {:induction false} HealthyAppend(ws: map<Id, Worker>, a: seq<Id>, b: seq<Id>, now: int)
    ensures HealthyIn(ws, a + b, now) == HealthyIn(ws, a, now) + HealthyIn(ws, b, now)
  {
    if b == [] {
      assert a + b == a;
    } else {
      HealthyAppend(ws, a, b[..|b| - 1], now);
      assert (a + b)[..|a + b| - 1] == a + b[..|b| - 1];
    }
  }

  lemma {:induction false} AllHealthy(ws: map<Id, Worker>, a: seq<Id>, now: int)
    requires forall k :: 0 <= k < |a| ==> IsHealthy(ws, a[k], now)
    ensures HealthyIn(ws, a, now) == |a|
  {
    if a != [] { AllHealthy(ws, a[..|a| - 1], now); }
  }

  lemma HealthyWithout(ws: map<Id, Worker>, a: seq<Id>, i: nat, now: int)
    requires i < |a| && !IsHealthy(ws, a[i], now)
    ensures HealthyIn(ws, Without(a, i), now) == HealthyIn(ws, a, now)
  {
    HealthyAppend(ws, a[..i], a[i + 1..], now);
    HealthyAppend(ws, a[..i], [a[i]], now);
    HealthyAppend(ws, a[..i] + [a[i]], a[i + 1..], now);
    assert a == a[..i] + [a[i]] + a[i + 1..];
  }

  lemma {:induction false} HealthySameWorkers(ws: map<Id, Worker>, vs: map<Id, Worker>, a: seq<Id>, now: int)
    requires forall w: Id :: IsHealthy(ws, w, now) <==> IsHealthy(vs, w, now)
    ensures HealthyIn(ws, a, now) == HealthyIn(vs, a, now)
  {
    if a != [] { HealthySameWorkers(ws, vs, a[..|a| - 1], now); }
  }

  lemma {:induction false} CandidatesAre(healthy: seq<Id>, replicas: seq<Id>)
    requires Distinct(healthy)
    ensures var c := Candidates(healthy, replicas);
      Distinct(c) && forall w: Id :: w in c <==> w in healthy && w !in replicas
  {
    if healthy != [] {
      var front := healthy[..|healthy| - 1];
      CandidatesAre(front, replicas);
      assert healthy == front + [healthy[|healthy| - 1]];
    }
  }

  // ---------------------------------------------------------------- one shard's replicas change

  ghost predicate SameShards(s: State, t: State)
  {
    HomesUnique(t) && forall id: Id :: Exists(t, id) <==> Exists(s, id)
  }

  /** `t` is `s` with other replicas for one shard. */
  ghost predicate Turns(s: State, t: State, sid: Id, replicas: seq<Id>)
  {
    && t.workers == s.workers && SameShards(s, t)
    && forall id: Id :: ReplicasOf(t, id) == if id == sid then replicas else ReplicasOf(s, id)
  }

  lemma ReconfigureTurns(s: State, sid: Id, replicas: seq<Id>)
    requires HomesUnique(s) && Exists(s, sid)
    ensures Turns(s, Reconfigure(s, sid, replicas), sid, replicas)
  {
    var t := Reconfigure(s, sid, replicas);
    forall id: Id
      ensures Exists(t, id) <==> Exists(s, id)
      ensures ReplicasOf(t, id) == if id == sid then replicas else ReplicasOf(s, id)
    {
      ReconfigureView(s, sid, replicas, id);
    }
    ReconfigureKeepsHomes(s, sid, replicas);
  }

  lemma AddTurns(s: State, sid: Id, w: Id, now: int)
    requires HomesUnique(s) && Exists(s, sid) && Spare(s, sid, w, now) && |ReplicasOf(s, sid)| < MAX_REPLICATION_FACTOR
    ensures Turns(s, ApplyAdd(s, sid, w, now).state, sid, ReplicasOf(s, sid) + [w])
  {
    ReconfigureTurns(s, sid, ReplicasOf(s, sid) + [w]);
  }

  ghost predicate Addable(s: State, sid: Id, ws: seq<Id>, now: int)
  {
    && Distinct(ws) && |ReplicasOf(s, sid)| + |ws| <= MAX_REPLICATION_FACTOR
    && forall k :: 0 <= k < |ws| ==> Spare(s, sid, ws[k], now)
  }

  lemma {:induction false} AddAllTurns(s: State, sid: Id, ws: seq<Id>, now: int)
    requires HomesUnique(s) && Exists(s, sid) && Addable(s, sid, ws, now)
    ensures Turns(s, AddAll(s, sid, ws, now), sid, ReplicasOf(s, sid) + ws)
  {
    if ws == [] {
      assert ReplicasOf(s, sid) + ws == ReplicasOf(s, sid);
    } else {
      var front, w := ws[..|ws| - 1], ws[|ws| - 1];
      AddAllTurns(s, sid, front, now);
      var t := AddAll(s, sid, front, now);
      assert w !in front;
      AddTurns(t, sid, w, now);
      assert ReplicasOf(s, sid) + front + [w] == ReplicasOf(s, sid) + ws;
    }
  }

  // ---------------------------------------------------------------- repairing one shard

  /** The healthy count a repair leaves: the replication factor, unless slots or candidates run out first. */
  ghost function RepairedCount(rf: RepFactor, s: State, sid: Id, healthy: seq<Id>, now: int): int
  {
    var replicas := ReplicasOf(s, sid);
    var h := HealthyIn(s.workers, replicas, now);
    if h >= rf then h
    else Min(rf, Min(h + Max(0, MAX_REPLICATION_FACTOR - |replicas|), h + |Candidates(healthy, replicas)|))
  }

  lemma AdditionsFit(rf: RepFactor, s: State, sid: Id, healthy: seq<Id>, now: int)
    requires ListsHealthy(s.workers, healthy, now)
    ensures var add := Additions(rf, s.workers, ReplicasOf(s, sid), healthy, now);
      && (add != [] ==> Addable(s, sid, add, now))
      && HealthyIn(s.workers, ReplicasOf(s, sid), now) + |add| == RepairedCount(rf, s, sid, healthy, now)
  {
    var replicas := ReplicasOf(s, sid);
    CandidatesAre(healthy, replicas);
    var add := Additions(rf, s.workers, replicas, healthy, now);
    assert add <= Candidates(healthy, replicas);
  }

  lemma RepairOne(rf: RepFactor, s: State, sid: Id, healthy: seq<Id>, now: int)
    requires HomesUnique(s) && Exists(s, sid) && ListsHealthy(s.workers, healthy, now)
    ensures var add := Additions(rf, s.workers, ReplicasOf(s, sid), healthy, now);
      var t := AddAll(s, sid, add, now);
      && Turns(s, t, sid, ReplicasOf(s, sid) + add)
      && HealthyIn(t.workers, ReplicasOf(t, sid), now) == RepairedCount(rf, s, sid, healthy, now)
  {
    var replicas := ReplicasOf(s, sid);
    var add := Additions(rf, s.workers, replicas, healthy, now);
    AdditionsFit(rf, s, sid, healthy, now);
    if add == [] {
      assert replicas + add == replicas;
    } else {
      AddAllTurns(s, sid, add, now);
    }
    AllHealthy(s.workers, add, now);
    HealthyAppend(s.workers, replicas, add, now);
  }

  // ---------------------------------------------------------------- repairing in list order

  /** How many of the listed shards get new replicas. */
  ghost function RepairsIn(rf: RepFactor, s: State, shards: seq<Id>, healthy: seq<Id>, now: int): nat
  {
    if shards == [] then 0
    else
      var first := if Additions(rf, s.workers, ReplicasOf(s, shards[0]), healthy, now) == [] then 0 else 1;
      first + RepairsIn(rf, s, shards[1..], healthy, now)
  }

  /** The first `n` shards of the list were given their additions, and nothing else changed. */
  ghost predicate Repaired(rf: RepFactor, s: State, t: State, shards: seq<Id>, healthy: seq<Id>, n: nat, now: int)
  {
    && t.workers == s.workers && SameShards(s, t) && n <= |shards|
    && forall id: Id :: ReplicasOf(t, id) == ReplicasOf(s, id) +
         if id in shards[..n] then Additions(rf, s.workers, ReplicasOf(s, id), healthy, now) else []
  }

  ghost predicate Stopped(rf: RepFactor, s: State, shards: seq<Id>, healthy: seq<Id>, n: nat, quota: int, now: int)
  {
    n <= |shards| && (n == |shards| || RepairsIn(rf, s, shards[..n], healthy, now) == Max(1, quota))
  }

  lemma {:induction false} RepairsSame(rf: RepFactor, s: State, t: State, shards: seq<Id>, healthy: seq<Id>, now: int)
    requires t.workers == s.workers && forall id :: id in shards ==> ReplicasOf(t, id) == ReplicasOf(s, id)
    ensures RepairsIn(rf, s, shards, healthy, now) == RepairsIn(rf, t, shards, healthy, now)
  {
    if shards != [] { RepairsSame(rf, s, t, shards[1..], healthy, now); }
  }

  lemma RepairedHead(rf: RepFactor, s: State, t: State, u: State, shards: seq<Id>, healthy: seq<Id>, n: nat, now: int)
    requires shards != [] && Distinct(shards) && HomesUnique(s)
    requires Turns(s, t, shards[0], ReplicasOf(s, shards[0]) + Additions(rf, s.workers, ReplicasOf(s, shards[0]), healthy, now))
    requires Repaired(rf, t, u, shards[1..], healthy, n, now)
    ensures Repaired(rf, s, u, shards, healthy, n + 1, now)
  {
  }

  lemma StoppedHead(rf: RepFactor, s: State, t: State, shards: seq<Id>, healthy: seq<Id>, n: nat, quota: int, now: int)
    requires shards != [] && n <= |shards| - 1 && t.workers == s.workers
    requires forall id :: id in shards[1..] ==> ReplicasOf(t, id) == ReplicasOf(s, id)
    requires Additions(rf, s.workers, ReplicasOf(s, shards[0]), healthy, now) == [] || quota > 1
    requires Stopped(rf, t, shards[1..], healthy, n,
      quota - if Additions(rf, s.workers, ReplicasOf(s, shards[0]), healthy, now) == [] then 0 else 1, now)
    ensures Stopped(rf, s, shards, healthy, n + 1, quota, now)
  {
    var rest := shards[1..][..n];
    assert shards[..n + 1] == [shards[0]] + rest && shards[..n + 1][1..] == rest;
    RepairsSame(rf, s, t, rest, healthy, now);
  }

  /** A state and a list of its shards that repairs can start from. */
  ghost predicate Plannable(s: State, shards: seq<Id>, healthy: seq<Id>, now: int)
  {
    && HomesUnique(s) && ListsHealthy(s.workers, healthy, now) && Distinct(shards)
    && forall k :: 0 <= k < |shards| ==> Exists(s, shards[k])
  }

  ghost predicate Runs(rf: RepFactor, s: State, t: State, shards: seq<Id>, healthy: seq<Id>, n: nat, quota: int, now: int)
  {
    Repaired(rf, s, t, shards, healthy, n, now) && Stopped(rf, s, shards, healthy, n, quota, now)
  }

  lemma RepairHead(rf: RepFactor, s: State, shards: seq<Id>, healthy: seq<Id>, now: int)
    requires Plannable(s, shards, healthy, now) && shards != []
    ensures var add := Additions(rf, s.workers, ReplicasOf(s, shards[0]), healthy, now);
      var t := AddAll(s, shards[0], add, now);
      Plannable(t, shards[1..], healthy, now) && Turns(s, t, shards[0], ReplicasOf(s, shards[0]) + add)
  {
    RepairOne(rf, s, shards[0], healthy, now);
  }

  lemma LastRepair(rf: RepFactor, s: State, t: State, shards: seq<Id>, healthy: seq<Id>, quota: int, now: int)
    requires Plannable(s, shards, healthy, now) && shards != [] && quota <= 1
    requires Turns(s, t, shards[0], ReplicasOf(s, shards[0]) + Additions(rf, s.workers, ReplicasOf(s, shards[0]), healthy, now))
    requires Additions(rf, s.workers, ReplicasOf(s, shards[0]), healthy, now) != []
    ensures Runs(rf, s, t, shards, healthy, 1, quota, now)
  {
  }

  lemma EarlierRepair(rf: RepFactor, s: State, t: State, u: State, shards: seq<Id>, healthy: seq<Id>, n: nat, quota: int, now: int)
    requires Plannable(s, shards, healthy, now) && shards != []
    requires Turns(s, t, shards[0], ReplicasOf(s, shards[0]) + Additions(rf, s.workers, ReplicasOf(s, shards[0]), healthy, now))
    requires Additions(rf, s.workers, ReplicasOf(s, shards[0]), healthy, now) == [] || quota > 1
    requires Runs(rf, t, u, shards[1..], healthy, n,
      quota - if Additions(rf, s.workers, ReplicasOf(s, shards[0]), healthy, now) == [] then 0 else 1, now)
    ensures Runs(rf, s, u, shards, healthy, n + 1, quota, now)
  {
    RepairedHead(rf, s, t, u, shards, healthy, n, now);
    StoppedHead(rf, s, t, shards, healthy, n, quota, now);
  }

  lemma {:induction false} RepairRuns(rf: RepFactor, s: State, shards: seq<Id>, healthy: seq<Id>, done: nat, limit: int, now: int)
    returns (n: nat)
    requires Plannable(s, shards, healthy, now)
    ensures Runs(rf, s, Repair(rf, s, shards, healthy, done, limit, now), shards, healthy, n, limit - done, now)
    decreases |shards|
  {
    if shards == [] {
      n := 0;
    } else {
      var add := Additions(rf, s.workers, ReplicasOf(s, shards[0]), healthy, now);
      var t := AddAll(s, shards[0], add, now);
      RepairHead(rf, s, shards, healthy, now);
      if add != [] && done + 1 >= limit {
        LastRepair(rf, s, t, shards, healthy, limit - done, now);
        n := 1;
      } else {
        var done' := if add == [] then done else done + 1;
        n := RepairRuns(rf, t, shards[1..], healthy, done', limit, now);
        EarlierRepair(rf, s, t, Repair(rf, t, shards[1..], healthy, done', limit, now), shards, healthy, n, limit - done, now);
        n := n + 1;
      }
    }
  }

  // ---------------------------------------------------------------- cleaning up

  /** `t` has the shards of `s`, each with as many healthy replicas, the under-replicated ones with the very same list. */
  ghost predicate Cleaned(rf: RepFactor, s: State, t: State, now: int)
  {
    && SameShards(s, t) && (forall w: Id :: IsHealthy(t.workers, w, now) <==> IsHealthy(s.workers, w, now))
    && forall id: Id ::
         && HealthyIn(t.workers, ReplicasOf(t, id), now) == HealthyIn(s.workers, ReplicasOf(s, id), now)
         && (HealthyIn(s.workers, ReplicasOf(s, id), now) < rf ==> ReplicasOf(t, id) == ReplicasOf(s, id))
  }

  lemma CleanedTransitive(rf: RepFactor, s: State, t: State, u: State, now: int)
    requires Cleaned(rf, s, t, now) && Cleaned(rf, t, u, now)
    ensures Cleaned(rf, s, u, now)
  {
  }

  lemma CleanOne(rf: RepFactor, s: State, w: Id, sid: Id, now: int)
    requires HomesUnique(s) && !IsHealthy(s.workers, w, now)
    ensures Cleaned(rf, s, Clean(rf, s, w, sid, now), now) && Clean(rf, s, w, sid, now).workers == s.workers
  {
    var replicas := ReplicasOf(s, sid);
    var t := Clean(rf, s, w, sid, now);
    if t != s {
      var i := IndexOf(replicas, w);
      ReconfigureTurns(s, sid, Without(replicas, i));
      HealthyWithout(s.workers, replicas, i, now);
    }
  }

  lemma {:induction false} CleanRuns(rf: RepFactor, s: State, pairs: seq<(Id, Id)>, now: int)
    requires HomesUnique(s) && forall k :: 0 <= k < |pairs| ==> !IsHealthy(s.workers, pairs[k].0, now)
    ensures Cleaned(rf, s, CleanAll(rf, s, pairs, now), now) && CleanAll(rf, s, pairs, now).workers == s.workers
  {
    if pairs != [] {
      var front, last := pairs[..|pairs| - 1], pairs[|pairs| - 1];
      CleanRuns(rf, s, front, now);
      var t := CleanAll(rf, s, front, now);
      CleanOne(rf, t, last.0, last.1, now);
      CleanedTransitive(rf, s, t, Clean(rf, t, last.0, last.1, now), now);
    }
  }

  lemma SameCollections(s: State, t: State)
    requires HomesUnique(s) && t.collections == s.collections
    ensures SameShards(s, t) && forall id: Id :: ReplicasOf(t, id) == ReplicasOf(s, id)
  {
    assert forall name, id: Id :: Hosts(t, name, id) <==> Hosts(s, name, id);
    forall id: Id
      ensures ReplicasOf(t, id) == ReplicasOf(s, id)
    {
      if Exists(s, id) { HomeIs(s, Home(t, id), id); }
    }
  }

  lemma PurgeOne(rf: RepFactor, s: State, w: Id, now: int)
    requires HomesUnique(s) && !IsHealthy(s.workers, w, now)
    ensures Cleaned(rf, s, s.(workers := s.workers - {w}), now)
  {
    var t := s.(workers := s.workers - {w});
    SameCollections(s, t);
    forall id: Id
      ensures HealthyIn(t.workers, ReplicasOf(t, id), now) == HealthyIn(s.workers, ReplicasOf(s, id), now)
    {
      HealthySameWorkers(t.workers, s.workers, ReplicasOf(s, id), now);
    }
  }

  lemma {:induction false} PurgeRuns(rf: RepFactor, s: State, dead: seq<Id>, now: int)
    requires HomesUnique(s) && forall k :: 0 <= k < |dead| ==> !IsHealthy(s.workers, dead[k], now)
    ensures Cleaned(rf, s, Purge(s, dead), now)
  {
    if dead != [] {
      var front, w := dead[..|dead| - 1], dead[|dead| - 1];
      PurgeRuns(rf, s, front, now);
      var t := Purge(s, front);
      if w in t.workers && !HostsAnyShard(t, w) {
        PurgeOne(rf, t, w, now);
        CleanedTransitive(rf, s, t, t.(workers := t.workers - {w}), now);
      }
    }
  }

  // ---------------------------------------------------------------- a whole pass

  lemma PassParts(rf: RepFactor, s: State, o: Orders, now: int) returns (n: nat)
    requires HomesUnique(s) && ValidOrders(rf, s, o, now)
    ensures var t := Repair(rf, s, o.shards, o.healthy, 0, o.limit, now);
      Repaired(rf, s, t, o.shards, o.healthy, n, now) && Cleaned(rf, t, Pass(rf, s, o, now), now)
    ensures Stopped(rf, s, o.shards, o.healthy, n, o.limit, now)
  {
    assert forall k :: 0 <= k < |o.shards| ==> UnderReplicated(rf, s, o.shards[k], now);
    n := RepairRuns(rf, s, o.shards, o.healthy, 0, o.limit, now);
    var t := Repair(rf, s, o.shards, o.healthy, 0, o.limit, now);
    CleanRuns(rf, t, o.pairs, now);
    var u := CleanAll(rf, t, o.pairs, now);
    assert forall k :: 0 <= k < |o.dead| ==> o.dead[k] in o.dead;
    PurgeRuns(rf, u, o.dead, now);
    CleanedTransitive(rf, t, u, Purge(u, o.dead), now);
  }

  ghost function Count(s: State, sid: Id, now: int): nat
  {
    HealthyIn(s.workers, ReplicasOf(s, sid), now)
  }

  ghost function CountAfter(rf: RepFactor, s: State, sid: Id, o: Orders, n: nat, now: int): int
    requires n <= |o.shards|
  {
    if sid in o.shards[..n] then RepairedCount(rf, s, sid, o.healthy, now) else Count(s, sid, now)
  }

  /** What a pass does to the healthy count of each shard: the first `n` under-replicated shards it met are brought to
      the replication factor, or as near as slots and candidates allow; every other count stays. Every shard is met,
      or as many were repaired as the limit allows (and at least one). */
  lemma PassEffect(rf: RepFactor, s: State, o: Orders, now: int) returns (n: nat)
    requires HomesUnique(s) && ValidOrders(rf, s, o, now)
    ensures SameShards(s, Pass(rf, s, o, now)) && Stopped(rf, s, o.shards, o.healthy, n, o.limit, now)
    ensures forall sid: Id :: Count(Pass(rf, s, o, now), sid, now) == CountAfter(rf, s, sid, o, n, now)
  {
    n := PassParts(rf, s, o, now);
    var t := Repair(rf, s, o.shards, o.healthy, 0, o.limit, now);
    forall sid: Id
      ensures Count(t, sid, now) == CountAfter(rf, s, sid, o, n, now)
    {
      if sid in o.shards[..n] {
        assert UnderReplicated(rf, s, sid, now);
        RepairOne(rf, s, sid, o.healthy, now);
      } else {
        assert ReplicasOf(s, sid) + [] == ReplicasOf(s, sid);
      }
    }
  }

  /** A pass never lowers any shard's healthy count. */
  lemma PassNeverLowers(rf: RepFactor, s: State, o: Orders, now: int, sid: Id)
    requires HomesUnique(s) && ValidOrders(rf, s, o, now)
    ensures (Exists(Pass(rf, s, o, now), sid) <==> Exists(s, sid)) && Count(Pass(rf, s, o, now), sid, now) >= Count(s, sid, now)
  {
    var n := PassEffect(rf, s, o, now);
    AdditionsFit(rf, s, sid, o.healthy, now);
  }

  // ---------------------------------------------------------------- what is left of dead workers

  lemma CleanTurns(rf: RepFactor, s: State, w: Id, sid: Id, now: int)
    requires HomesUnique(s)
    ensures var t, r := Clean(rf, s, w, sid, now), ReplicasOf(s, sid);
      if w in r && |r| > rf && HealthyIn(s.workers, r, now) >= rf then Turns(s, t, sid, Without(r, IndexOf(r, w))) else t == s
  {
    var r := ReplicasOf(s, sid);
    if w in r { ReconfigureTurns(s, sid, Without(r, IndexOf(r, w))); }
  }

  /** A replica of a worker that was not looked at is still there. */
  lemma {:induction false} CleanKeepsOthers(rf: RepFactor, s: State, pairs: seq<(Id, Id)>, now: int, w: Id, sid: Id)
    requires HomesUnique(s) && forall k :: 0 <= k < |pairs| ==> !IsHealthy(s.workers, pairs[k].0, now)
    requires w in ReplicasOf(s, sid) && (w, sid) !in pairs
    ensures w in ReplicasOf(CleanAll(rf, s, pairs, now), sid)
  {
    if pairs != [] {
      var front, last := pairs[..|pairs| - 1], pairs[|pairs| - 1];
      CleanKeepsOthers(rf, s, front, now, w, sid);
      CleanRuns(rf, s, front, now);
      var t := CleanAll(rf, s, front, now);
      CleanTurns(rf, t, last.0, last.1, now);
      var r := ReplicasOf(t, last.1);
      if last.0 in r { OthersRemain(r, IndexOf(r, last.0), 0, w); }
    }
  }

  /** A dead replica that was looked at is gone, unless the shard has no replica to spare or too few healthy ones. */
  ghost predicate Spent(rf: RepFactor, s: State, w: Id, sid: Id, now: int)
  {
    w in ReplicasOf(s, sid) ==> |ReplicasOf(s, sid)| <= rf || HealthyIn(s.workers, ReplicasOf(s, sid), now) < rf
  }

  lemma CleanOneSpends(rf: RepFactor, s: State, w: Id, sid: Id, now: int, x: Id, id: Id)
    requires HomesUnique(s) && Distinct(ReplicasOf(s, id)) && !IsHealthy(s.workers, w, now)
    ensures var t := Clean(rf, s, w, sid, now);
      Distinct(ReplicasOf(t, id)) && ((x, id) == (w, sid) || Spent(rf, s, x, id, now) ==> Spent(rf, t, x, id, now))
  {
    var r := ReplicasOf(s, sid);
    CleanTurns(rf, s, w, sid, now);
    CleanOne(rf, s, w, sid, now);
    if w in r && id == sid {
      WithoutDistinct(r, IndexOf(r, w));
      OthersRemain(r, IndexOf(r, w), 0, x);
    }
  }

  lemma {:induction false} CleanSpends(rf: RepFactor, s: State, pairs: seq<(Id, Id)>, now: int, w: Id, sid: Id)
    requires HomesUnique(s) && forall k :: 0 <= k < |pairs| ==> !IsHealthy(s.workers, pairs[k].0, now)
    requires Distinct(ReplicasOf(s, sid))
    ensures var t := CleanAll(rf, s, pairs, now); Distinct(ReplicasOf(t, sid)) && ((w, sid) in pairs ==> Spent(rf, t, w, sid, now))
  {
    if pairs != [] {
      var front, last := pairs[..|pairs| - 1], pairs[|pairs| - 1];
      CleanSpends(rf, s, front, now, w, sid);
      CleanRuns(rf, s, front, now);
      CleanOneSpends(rf, CleanAll(rf, s, front, now), last.0, last.1, now, w, sid);
      assert pairs == front + [last];
    }
  }

  lemma {:induction false} PurgeOnlyWorkers(s: State, dead: seq<Id>)
    ensures Purge(s, dead) == s.(workers := Purge(s, dead).workers)
    ensures forall w: Id :: w in Purge(s, dead).workers ==> w in s.workers && (w in dead ==> HostsAnyShard(s, w))
  {
    if dead != [] {
      var front, last := dead[..|dead| - 1], dead[|dead| - 1];
      PurgeOnlyWorkers(s, front);
      assert dead == front + [last];
      assert forall w: Id :: HostsAnyShard(Purge(s, front), w) <==> HostsAnyShard(s, w);
    }
  }

  lemma RepairedDistinct(rf: RepFactor, s: State, t: State, o: Orders, n: nat, now: int, sid: Id)
    requires ListsHealthy(s.workers, o.healthy, now) && Repaired(rf, s, t, o.shards, o.healthy, n, now) && Distinct(ReplicasOf(s, sid))
    ensures Distinct(ReplicasOf(t, sid))
  {
    var add := Additions(rf, s.workers, ReplicasOf(s, sid), o.healthy, now);
    AdditionsFit(rf, s, sid, o.healthy, now);
    if add != [] {
      assert forall i, j :: 0 <= i < |ReplicasOf(s, sid)| && 0 <= j < |add| ==> ReplicasOf(s, sid)[i] != add[j];
    }
  }

  lemma CoveredSpends(rf: RepFactor, s: State, pairs: seq<(Id, Id)>, now: int, w: Id, sid: Id)
    requires HomesUnique(s) && forall k :: 0 <= k < |pairs| ==> !IsHealthy(s.workers, pairs[k].0, now)
    requires Distinct(ReplicasOf(s, sid)) && (w in ReplicasOf(s, sid) ==> (w, sid) in pairs)
    ensures Spent(rf, CleanAll(rf, s, pairs, now), w, sid, now)
  {
    CleanSpends(rf, s, pairs, now, w, sid);
    if w in ReplicasOf(CleanAll(rf, s, pairs, now), sid) { CleanOnlyRemoves(rf, s, pairs, now, w, sid); }
  }

  lemma SpentStays(rf: RepFactor, s: State, t: State, w: Id, sid: Id, now: int)
    requires HomesUnique(s) && t.collections == s.collections && Cleaned(rf, s, t, now) && Spent(rf, s, w, sid, now)
    ensures Spent(rf, t, w, sid, now)
  {
    SameCollections(s, t);
  }

  lemma PurgeSpends(rf: RepFactor, s: State, dead: seq<Id>, w: Id, sid: Id, now: int)
    requires HomesUnique(s) && Spent(rf, s, w, sid, now) && forall k :: 0 <= k < |dead| ==> !IsHealthy(s.workers, dead[k], now)
    ensures Spent(rf, Purge(s, dead), w, sid, now)
  {
    PurgeRuns(rf, s, dead, now);
    PurgeOnlyWorkers(s, dead);
    SpentStays(rf, s, Purge(s, dead), w, sid, now);
  }

  /** What cleaning up starts from. */
  lemma ReadyToClean(rf: RepFactor, s: State, o: Orders, now: int, w: Id, sid: Id)
    requires HomesUnique(s) && ValidOrders(rf, s, o, now) && Dead(s.workers, w, now) && Distinct(ReplicasOf(s, sid))
    ensures var t := Repair(rf, s, o.shards, o.healthy, 0, o.limit, now);
      && HomesUnique(t) && t.workers == s.workers && Distinct(ReplicasOf(t, sid))
      && (w in ReplicasOf(t, sid) ==> (w, sid) in o.pairs)
  {
    var n := PassParts(rf, s, o, now);
    RepairedDistinct(rf, s, Repair(rf, s, o.shards, o.healthy, 0, o.limit, now), o, n, now, sid);
  }

  /** After a pass, a worker that was dead is a replica only of shards without replicas to spare or with too few healthy
      ones. */
  lemma DeadReplicasGo(rf: RepFactor, s: State, o: Orders, now: int, w: Id, sid: Id)
    requires HomesUnique(s) && ValidOrders(rf, s, o, now) && Distinct(ReplicasOf(s, sid))
    requires w in s.workers && now - s.workers[w].lastHeartbeat >= 86_400 * 1_000_000_000
    ensures Spent(rf, Pass(rf, s, o, now), w, sid, now)
  {
    var t := Repair(rf, s, o.shards, o.healthy, 0, o.limit, now);
    ReadyToClean(rf, s, o, now, w, sid);
    CoveredSpends(rf, t, o.pairs, now, w, sid);
    CleanRuns(rf, t, o.pairs, now);
    assert forall k :: 0 <= k < |o.dead| ==> o.dead[k] in o.dead;
    PurgeSpends(rf, CleanAll(rf, t, o.pairs, now), o.dead, w, sid, now);
  }

  /** And it is registered only if it is still a replica of some shard. */
  lemma DeadWorkersGo(rf: RepFactor, s: State, o: Orders, now: int, w: Id)
    requires HomesUnique(s) && ValidOrders(rf, s, o, now) && w in Pass(rf, s, o, now).workers
    requires w in s.workers && now - s.workers[w].lastHeartbeat >= 86_400 * 1_000_000_000
    ensures HostsAnyShard(Pass(rf, s, o, now), w)
  {
    var u := CleanAll(rf, Repair(rf, s, o.shards, o.healthy, 0, o.limit, now), o.pairs, now);
    PurgeOnlyWorkers(u, o.dead);
    assert w in o.dead;
    assert forall name, sid: Id :: Hosts(Purge(u, o.dead), name, sid) <==> Hosts(u, name, sid);
  }

  lemma {:induction false} CleanOnlyRemoves(rf: RepFactor, s: State, pairs: seq<(Id, Id)>, now: int, w: Id, sid: Id)
    requires HomesUnique(s) && forall k :: 0 <= k < |pairs| ==> !IsHealthy(s.workers, pairs[k].0, now)
    requires w in ReplicasOf(CleanAll(rf, s, pairs, now), sid)
    ensures w in ReplicasOf(s, sid)
  {
    if pairs != [] {
      var front, last := pairs[..|pairs| - 1], pairs[|pairs| - 1];
      CleanRuns(rf, s, front, now);
      var t := CleanAll(rf, s, front, now);
      CleanTurns(rf, t, last.0, last.1, now);
      var r := ReplicasOf(t, last.1);
      if last.0 in r { OthersRemain(r, IndexOf(r, last.0), 0, w); }
      CleanOnlyRemoves(rf, s, front, now, w, sid);
    }
  }

  // ---------------------------------------------------------------- what a pass leaves alone

  lemma {:induction false} PurgeSpares(s: State, dead: seq<Id>, w: Id)
    requires w in s.workers && w !in dead
    ensures w in Purge(s, dead).workers && Purge(s, dead).workers[w] == s.workers[w]
  {
    if dead != [] {
      PurgeSpares(s, dead[..|dead| - 1], w);
    }
  }

  /** A worker heard from in the last day stays registered through a pass, and stays a replica of every shard it holds. */
  lemma PassSparesTheLiving(rf: RepFactor, s: State, o: Orders, now: int, w: Id, sid: Id)
    requires HomesUnique(s) && ValidOrders(rf, s, o, now)
    requires w in s.workers && now - s.workers[w].lastHeartbeat < 86_400 * 1_000_000_000
    ensures var t := Pass(rf, s, o, now);
      w in t.workers && t.workers[w] == s.workers[w] && (w in ReplicasOf(s, sid) ==> w in ReplicasOf(t, sid))
  {
    var n := PassParts(rf, s, o, now);
    var t := Repair(rf, s, o.shards, o.healthy, 0, o.limit, now);
    var u := CleanAll(rf, t, o.pairs, now);
    CleanRuns(rf, t, o.pairs, now);
    PurgeSpares(u, o.dead, w);
    PurgeOnlyWorkers(u, o.dead);
    SameCollections(u, Purge(u, o.dead));
    if w in ReplicasOf(s, sid) { CleanKeepsOthers(rf, t, o.pairs, now, w, sid); }
  }

  /** Only healthy workers gain a shard in a pass. */
  lemma PassAddsHealthy(rf: RepFactor, s: State, o: Orders, now: int, w: Id, sid: Id)
    requires HomesUnique(s) && ValidOrders(rf, s, o, now)
    requires w in ReplicasOf(Pass(rf, s, o, now), sid) && w !in ReplicasOf(s, sid)
    ensures IsHealthy(s.workers, w, now) && UnderReplicated(rf, s, sid, now)
  {
    var n := PassParts(rf, s, o, now);
    var t := Repair(rf, s, o.shards, o.healthy, 0, o.limit, now);
    var u := CleanAll(rf, t, o.pairs, now);
    CleanRuns(rf, t, o.pairs, now);
    PurgeOnlyWorkers(u, o.dead);
    SameCollections(u, Purge(u, o.dead));
    CleanOnlyRemoves(rf, t, o.pairs, now, w, sid);
    AdditionsComeFirst(rf, s.workers, ReplicasOf(s, sid), o.healthy, now);
  }

  /** A repair takes as many healthy workers as it needs and has slots for, in the order they were met, passing over none
      that does not hold the shard. */
  lemma AdditionsComeFirst(rf: RepFactor, ws: map<Id, Worker>, replicas: seq<Id>, healthy: seq<Id>, now: int)
    requires ListsHealthy(ws, healthy, now)
    ensures var add := Additions(rf, ws, replicas, healthy, now);
      && (forall w :: w in add ==> w in healthy && w !in replicas)
      && (forall i, j :: 0 <= i < j < |healthy| && healthy[j] in add && healthy[i] !in replicas ==> healthy[i] in add)
  {
    CandidatesAre(healthy, replicas);
    var candidates, add := Candidates(healthy, replicas), Additions(rf, ws, replicas, healthy, now);
    forall i, j | 0 <= i < j < |healthy| && healthy[j] in add && healthy[i] !in replicas
      ensures healthy[i] in add
    {
      var met := Candidates(healthy[..j], replicas);
      CandidatesGrow(healthy, replicas, j);
      CandidatesAre(healthy[..j], replicas);
      assert healthy[..j][i] == healthy[i];
      assert healthy[i] in met && healthy[j] !in met;
      var b :| 0 <= b < |add| && add[b] == healthy[j];
      assert forall k :: 0 <= k < |met| ==> met[k] == candidates[k] && met[k] != healthy[j];
      assert |met| <= b;
      var a :| 0 <= a < |met| && met[a] == healthy[i];
      assert add[a] == healthy[i];
    }
  }

  lemma {:induction false} CandidatesGrow(healthy: seq<Id>, replicas: seq<Id>, j: nat)
    requires j <= |healthy|
    ensures Candidates(healthy[..j], replicas) <= Candidates(healthy, replicas)
  {
    if j == |healthy| {
      assert healthy[..j] == healthy;
    } else {
      assert healthy[..|healthy| - 1][..j] == healthy[..j];
      CandidatesGrow(healthy[..|healthy| - 1], replicas, j);
    }
  }

  // ---------------------------------------------------------------- convergence

  ghost function Shortfall(rf: RepFactor, s: State, sid: Id, now: int): nat
  {
    Max(0, rf - Count(s, sid, now))
  }

  /** The total deficit over a listing of the shards. */
  ghost function Deficit(rf: RepFactor, s: State, all: seq<Id>, now: int): nat
  {
    if all == [] then 0 else Shortfall(rf, s, all[0], now) + Deficit(rf, s, all[1..], now)
  }

  ghost predicate ListsAll(s: State, all: seq<Id>)
  {
    forall sid: Id :: Exists(s, sid) ==> sid in all
  }

  lemma {:induction false} DeficitMonotone(rf: RepFactor, s: State, t: State, all: seq<Id>, now: int, sid: Id)
    requires forall id :: id in all ==> Shortfall(rf, t, id, now) <= Shortfall(rf, s, id, now)
    ensures Deficit(rf, t, all, now) <= Deficit(rf, s, all, now)
    ensures sid in all && Shortfall(rf, t, sid, now) < Shortfall(rf, s, sid, now) ==>
      Deficit(rf, t, all, now) < Deficit(rf, s, all, now)
  {
    if all != [] { DeficitMonotone(rf, s, t, all[1..], now, sid); }
  }

  lemma {:induction false} NoDeficit(rf: RepFactor, s: State, all: seq<Id>, now: int)
    requires Deficit(rf, s, all, now) == 0
    ensures forall sid :: sid in all ==> Count(s, sid, now) >= rf
  {
    if all != [] { NoDeficit(rf, s, all[1..], now); }
  }

  lemma AdditionsIff(rf: RepFactor, s: State, sid: Id, healthy: seq<Id>, now: int)
    requires ListsHealthy(s.workers, healthy, now) && Exists(s, sid)
    ensures Additions(rf, s.workers, ReplicasOf(s, sid), healthy, now) != [] <==> Repairable(rf, s, sid, now)
  {
    var c := Candidates(healthy, ReplicasOf(s, sid));
    CandidatesAre(healthy, ReplicasOf(s, sid));
    if c != [] { assert c[0] in c && Spare(s, sid, c[0], now); }
  }

  lemma {:induction false} SomeRepair(rf: RepFactor, s: State, shards: seq<Id>, healthy: seq<Id>, now: int) returns (sid: Id)
    requires RepairsIn(rf, s, shards, healthy, now) > 0
    ensures sid in shards && Additions(rf, s.workers, ReplicasOf(s, sid), healthy, now) != []
  {
    if Additions(rf, s.workers, ReplicasOf(s, shards[0]), healthy, now) != [] {
      sid := shards[0];
    } else {
      sid := SomeRepair(rf, s, shards[1..], healthy, now);
    }
  }

  /** While any shard can be repaired, a pass repairs one, whatever its limit. */
  lemma PassRepairs(rf: RepFactor, s: State, o: Orders, now: int, any: Id) returns (sid: Id)
    requires HomesUnique(s) && ValidOrders(rf, s, o, now) && Repairable(rf, s, any, now)
    ensures Exists(s, sid) && Shortfall(rf, Pass(rf, s, o, now), sid, now) < Shortfall(rf, s, sid, now)
  {
    var n := PassEffect(rf, s, o, now);
    if n == |o.shards| {
      sid := any;
      assert o.shards[..n] == o.shards;
      AdditionsIff(rf, s, sid, o.healthy, now);
    } else {
      sid := SomeRepair(rf, s, o.shards[..n], o.healthy, now);
      assert sid in o.shards;
    }
    assert UnderReplicated(rf, s, sid, now);
    AdditionsFit(rf, s, sid, o.healthy, now);
  }

  /** The total deficit strictly falls in every pass that finds a repairable shard. */
  lemma DeficitFalls(rf: RepFactor, s: State, o: Orders, now: int, all: seq<Id>, any: Id)
    requires HomesUnique(s) && ValidOrders(rf, s, o, now) && ListsAll(s, all) && Repairable(rf, s, any, now)
    ensures Deficit(rf, Pass(rf, s, o, now), all, now) < Deficit(rf, s, all, now)
  {
    var t := Pass(rf, s, o, now);
    forall id | id in all
      ensures Shortfall(rf, t, id, now) <= Shortfall(rf, s, id, now)
    {
      PassNeverLowers(rf, s, o, now, id);
    }
    var sid := PassRepairs(rf, s, o, now, any);
    DeficitMonotone(rf, s, t, all, now, sid);
  }

  /** Every under-replicated shard has no free slot or no candidate. */
  ghost predicate Quiet(rf: RepFactor, s: State, now: int)
  {
    forall sid: Id :: !Repairable(rf, s, sid, now)
  }

  lemma QuietRepair(rf: RepFactor, s: State, t: State, o: Orders, n: nat, now: int)
    requires ValidOrders(rf, s, o, now) && Quiet(rf, s, now) && Repaired(rf, s, t, o.shards, o.healthy, n, now)
    ensures forall sid: Id :: ReplicasOf(t, sid) == ReplicasOf(s, sid)
  {
    forall sid: Id
      ensures ReplicasOf(t, sid) == ReplicasOf(s, sid)
    {
      if sid in o.shards[..n] {
        assert UnderReplicated(rf, s, sid, now);
        AdditionsIff(rf, s, sid, o.healthy, now);
      }
    }
  }

  lemma QuietCleaned(rf: RepFactor, t: State, u: State, now: int)
    requires Quiet(rf, t, now) && Cleaned(rf, t, u, now)
    ensures Quiet(rf, u, now)
  {
    forall sid: Id
      ensures !Repairable(rf, u, sid, now)
    {
      if UnderReplicated(rf, u, sid, now) {
        assert UnderReplicated(rf, t, sid, now);
        assert forall w: Id :: Spare(u, sid, w, now) <==> Spare(t, sid, w, now);
        assert !Repairable(rf, t, sid, now);
      }
    }
  }

  lemma QuietFrame(rf: RepFactor, s: State, t: State, now: int)
    requires Quiet(rf, s, now) && t.workers == s.workers && SameShards(s, t)
    requires forall sid: Id :: ReplicasOf(t, sid) == ReplicasOf(s, sid)
    ensures Quiet(rf, t, now)
  {
    forall sid: Id
      ensures !Repairable(rf, t, sid, now)
    {
      assert !Repairable(rf, s, sid, now);
      assert forall w: Id :: Spare(s, sid, w, now) <==> Spare(t, sid, w, now);
    }
  }

  /** Once quiet, a pass adds no replica and changes no healthy count, and leaves things quiet: dropping dead replicas
      never frees a slot in an under-replicated shard. */
  lemma QuietStays(rf: RepFactor, s: State, o: Orders, now: int)
    requires HomesUnique(s) && ValidOrders(rf, s, o, now) && Quiet(rf, s, now)
    ensures Quiet(rf, Pass(rf, s, o, now), now)
    ensures forall sid: Id :: Count(Pass(rf, s, o, now), sid, now) == Count(s, sid, now)
  {
    var n := PassParts(rf, s, o, now);
    var t := Repair(rf, s, o.shards, o.healthy, 0, o.limit, now);
    QuietRepair(rf, s, t, o, n, now);
    QuietFrame(rf, s, t, now);
    QuietCleaned(rf, t, Pass(rf, s, o, now), now);
  }

  /** Successive passes at one clock reading. */
  ghost function Passes(rf: RepFactor, s: State, os: seq<Orders>, now: int): State
    decreases |os|
  {
    if os == [] then s else Passes(rf, Pass(rf, s, os[0], now), os[1..], now)
  }

  ghost predicate ValidPasses(rf: RepFactor, s: State, os: seq<Orders>, now: int)
    decreases |os|
  {
    os != [] ==> ValidOrders(rf, s, os[0], now) && ValidPasses(rf, Pass(rf, s, os[0], now), os[1..], now)
  }

  /** Passes reach a state where every under-replicated shard has no slot or no candidate, after at most as many passes
      as the deficit they started with, and stay there. */
  lemma {:induction false} PassesConverge(rf: RepFactor, s: State, os: seq<Orders>, now: int, all: seq<Id>)
    requires HomesUnique(s) && ValidPasses(rf, s, os, now) && ListsAll(s, all)
    requires |os| >= Deficit(rf, s, all, now) || Quiet(rf, s, now)
    ensures Quiet(rf, Passes(rf, s, os, now), now)
    decreases |os|
  {
    if os == [] {
      if Deficit(rf, s, all, now) == 0 { NoDeficit(rf, s, all, now); }
    } else {
      var t := Pass(rf, s, os[0], now);
      var _ := PassEffect(rf, s, os[0], now);
      if Quiet(rf, s, now) {
        QuietStays(rf, s, os[0], now);
      } else {
        var any: Id :| Repairable(rf, s, any, now);
        DeficitFalls(rf, s, os[0], now, all, any);
      }
      PassesConverge(rf, t, os[1..], now, all);
    }
  }
}
