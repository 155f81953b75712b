/** Properties of whole runs of the placement driver's log: what an epoch names, and what is never undone. */
module History {
  import opened Prelude
  import opened FsmTypes
  import opened FsmModel
  import opened FsmInvariant
  import Placement

  // ---------------------------------------------------------------- how a later state relates to an earlier one

  /** What the life of one shard keeps, from `a` at some time to `b` at a later one. */
  ghost predicate ShardFollows(rf: RepFactor, a: Shard, b: Shard)
  {
    && a.epoch <= b.epoch && (a.epoch == b.epoch ==> a.replicas == b.replicas)
    && a.collection == b.collection && a.start == b.start && a.end == b.end
    && |b.replicas| >= Min(|a.replicas|, rf)
    && (a.bootstrapped ==> b.bootstrapped)
    && (b.bootstrapped || a.bootstrapMembers == b.bootstrapMembers)
  }

  ghost predicate SamePlace(a: Shard, b: Shard)
  {
    a.replicas == b.replicas && a.start == b.start && a.end == b.end
  }

  ghost predicate SameLayout(s: State, t: State)
  {
    forall sid: Id ::
      && (Exists(s, sid) <==> Exists(t, sid))
      && (Exists(s, sid) ==> SamePlace(ShardOf(s, sid), ShardOf(t, sid)))
  }

  ghost predicate ShardsFollow(rf: RepFactor, s: State, t: State)
  {
    forall sid: Id :: Exists(t, sid) ==>
      if Exists(s, sid) then ShardFollows(rf, ShardOf(s, sid), ShardOf(t, sid)) else sid >= s.nextShard
  }

  /** Worker ids keep their addresses and are never reused. */
  ghost predicate WorkersFollow(s: State, t: State)
  {
    forall id: Id :: id in t.workers ==>
      if id in s.workers then SameAddress(s.workers[id], t.workers[id]) else id >= s.nextWorker
  }

  ghost predicate Follows(rf: RepFactor, s: State, t: State)
  {
    && s.nextShard <= t.nextShard && s.nextWorker <= t.nextWorker && s.assignmentsEpoch <= t.assignmentsEpoch
    && (s.assignmentsEpoch == t.assignmentsEpoch ==> SameLayout(s, t))
    && ShardsFollow(rf, s, t) && WorkersFollow(s, t)
  }

  // ---------------------------------------------------------------- one step

  /** Nothing about the shards changed. */
  lemma SameCollectionsFollow(rf: RepFactor, s: State, t: State)
    requires Inv(s) && t.collections == s.collections
    ensures SameLayout(s, t) && ShardsFollow(rf, s, t)
  {
    forall sid: Id
      ensures Exists(t, sid) <==> Exists(s, sid)
      ensures Exists(s, sid) ==> ShardOf(t, sid) == ShardOf(s, sid)
    {
      forall name
        ensures Hosts(t, name, sid) <==> Hosts(s, name, sid)
      {
      }
      if Exists(s, sid) { HomeIs(s, Home(t, sid), sid); }
    }
  }

  /** One shard was replaced by a legitimate successor. */
  lemma PutShardFollows(rf: RepFactor, s: State, sid: Id, sh: Shard, ae: nat)
    requires Inv(s) && Exists(s, sid) && ShardFollows(rf, ShardOf(s, sid), sh) && ae >= s.assignmentsEpoch
    requires ae == s.assignmentsEpoch ==> sh.replicas == ShardOf(s, sid).replicas
    ensures Follows(rf, s, PutShard(s, sid, sh).(assignmentsEpoch := ae))
  {
    var t := PutShard(s, sid, sh).(assignmentsEpoch := ae);
    forall id: Id
      ensures Exists(t, id) <==> Exists(s, id)
      ensures Exists(s, id) ==> ShardOf(t, id) == if id == sid then sh else ShardOf(s, id)
    {
      PutView(s, sid, sh, ae, id);
    }
  }

  lemma ShardCommandFollows(rf: RepFactor, s: State, cmd: Command, env: Env)
    requires OnShards(cmd) && Inv(s) && Headroom(s, cmd)
    ensures Follows(rf, s, Apply(rf, s, cmd, env).state)
  {
    var t := Apply(rf, s, cmd, env).state;
    if t == s {
      SameCollectionsFollow(rf, s, s);
    } else {
      var sid := cmd.shard;
      var sh := ShardOf(s, sid);
      assert Hosts(s, Home(s, sid), sid);
      var sh' := t.collections[Home(s, sid)].shards[sid];
      assert t == PutShard(s, sid, sh').(assignmentsEpoch := t.assignmentsEpoch);
      PutShardFollows(rf, s, sid, sh', t.assignmentsEpoch);
    }
  }

  /** Adding a collection of new shards disturbs none of the others. */
  lemma NewCollectionFollows(rf: RepFactor, s: State, t: State, name: string)
    requires Inv(s) && HomesUnique(t) && name !in s.collections && name in t.collections
    requires t.collections == s.collections[name := t.collections[name]]
    requires forall sid: Id :: sid in t.collections[name].shards ==> sid >= s.nextShard
    ensures ShardsFollow(rf, s, t)
  {
    forall sid: Id | Exists(t, sid)
      ensures if Exists(s, sid) then ShardFollows(rf, ShardOf(s, sid), ShardOf(t, sid)) else sid >= s.nextShard
    {
      if Home(t, sid) == name {
        assert forall x :: !Hosts(s, x, sid);
        assert !Exists(s, sid);
      } else {
        assert Hosts(s, Home(t, sid), sid);
      }
    }
  }

  lemma CreateFollows(rf: RepFactor, s: State, cmd: Command, env: Env)
    requires cmd.CreateCollection? && Inv(s) && ValidEnv(s, cmd, env) && Headroom(s, cmd)
    ensures Follows(rf, s, Apply(rf, s, cmd, env).state)
  {
    var t := Apply(rf, s, cmd, env).state;
    if t == s {
      SameCollectionsFollow(rf, s, s);
    } else {
      CreatedShards(rf, s, cmd, env);
      CreateInv(rf, s, cmd, env);
      NewCollectionFollows(rf, s, t, cmd.name);
    }
  }

  lemma DeleteFollows(rf: RepFactor, s: State, name: string)
    requires Inv(s) && s.assignmentsEpoch + 1 < TWO64
    ensures Follows(rf, s, s.(collections := s.collections - {name}, assignmentsEpoch := BumpEpoch(s.assignmentsEpoch)))
  {
  }

  ghost predicate OnShards(cmd: Command)
  {
    cmd.UpdateShardLeader? || cmd.UpdateShardMetrics? || cmd.AddShardReplica? || cmd.RemoveShardReplica? || cmd.MoveShard?
  }

  lemma RegisterKeepsAddresses(s: State, cmd: Command, now: int)
    requires cmd.RegisterWorker? && WorkersOk(s) && s.nextWorker + 1 < TWO64
    ensures var t := ApplyRegisterWorker(s, cmd, now).state;
      && t == s.(workers := t.workers, nextWorker := t.nextWorker) && s.nextWorker <= t.nextWorker && WorkersFollow(s, t)
  {
  }

  /** Commands about workers, rerankers and peers leave the shards alone and keep addresses. */
  lemma OtherCommandEffect(rf: RepFactor, s: State, cmd: Command, env: Env)
    requires !OnShards(cmd) && !cmd.CreateCollection? && !cmd.DeleteCollection?
    requires WorkersOk(s) && s.nextWorker + 1 < TWO64
    ensures var t := Apply(rf, s, cmd, env).state;
      && t.collections == s.collections && t.nextShard == s.nextShard && t.assignmentsEpoch == s.assignmentsEpoch
      && s.nextWorker <= t.nextWorker && WorkersFollow(s, t)
  {
    match cmd
    case RegisterWorker(_, _, _, _, _, _) => RegisterKeepsAddresses(s, cmd, env.now);
    case RemoveWorker(w) =>
    case UpdateWorkerHeartbeat(w, _, _) =>
    case UpdateWorkerState(w, _) =>
    case _ =>
  }

  lemma OtherCommandFollows(rf: RepFactor, s: State, cmd: Command, env: Env)
    requires !OnShards(cmd) && !cmd.CreateCollection? && !cmd.DeleteCollection?
    requires Inv(s) && Headroom(s, cmd)
    ensures Follows(rf, s, Apply(rf, s, cmd, env).state)
  {
    OtherCommandEffect(rf, s, cmd, env);
    SameCollectionsFollow(rf, s, Apply(rf, s, cmd, env).state);
  }

  lemma StepFollows(rf: RepFactor, s: State, cmd: Command, env: Env)
    requires Inv(s) && ValidEnv(s, cmd, env) && Headroom(s, cmd)
    ensures Follows(rf, s, Apply(rf, s, cmd, env).state)
  {
    if OnShards(cmd) {
      ShardCommandFollows(rf, s, cmd, env);
    } else if cmd.CreateCollection? {
      CreateFollows(rf, s, cmd, env);
    } else if cmd.DeleteCollection? {
      SameCollectionsFollow(rf, s, s);
      DeleteFollows(rf, s, cmd.name);
    } else {
      OtherCommandFollows(rf, s, cmd, env);
    }
  }

  // ---------------------------------------------------------------- runs

  ghost predicate Next(rf: RepFactor, s: State, t: State)
  {
    exists cmd: Command, env: Env :: Step(rf, s, cmd, env, t)
  }

  ghost predicate StepAt(rf: RepFactor, run: seq<State>, i: nat)
  {
    i + 1 < |run| ==> Next(rf, run[i], run[i + 1])
  }

  /** The successive states of one run of the log, from an empty placement driver on. */
  ghost predicate Run(rf: RepFactor, run: seq<State>)
  {
    |run| > 0 && run[0] == Initial && forall i: nat :: StepAt(rf, run, i)
  }

  /** A step from a good state. */
  ghost predicate Onward(rf: RepFactor, s: State, t: State)
  {
    Inv(s) && Next(rf, s, t)
  }

  lemma OnwardFollows(rf: RepFactor, s: State, t: State)
    requires Onward(rf, s, t)
    ensures Later(rf, s, t)
  {
    var cmd: Command, env: Env :| Step(rf, s, cmd, env, t);
    StepInv(rf, s, cmd, env);
    StepFollows(rf, s, cmd, env);
  }

  lemma RunOnward(rf: RepFactor, run: seq<State>, i: nat)
    requires Run(rf, run) && i + 1 < |run| && Inv(run[i])
    ensures Onward(rf, run[i], run[i + 1])
  {
    assert StepAt(rf, run, i);
  }

  lemma {:induction false} RunInv(rf: RepFactor, run: seq<State>, i: nat)
    requires Run(rf, run) && i < |run|
    ensures Inv(run[i])
  {
    if i == 0 {
      InitialInv();
    } else {
      RunInv(rf, run, i - 1);
      RunOnward(rf, run, i - 1);
      OnwardFollows(rf, run[i - 1], run[i]);
    }
  }

  lemma RunNext(rf: RepFactor, run: seq<State>, j: nat)
    requires Run(rf, run) && 0 < j < |run|
    ensures Onward(rf, run[j - 1], run[j])
  {
    RunInv(rf, run, j - 1);
    RunOnward(rf, run, j - 1);
  }

  lemma RunStep(rf: RepFactor, run: seq<State>, j: nat)
    requires Run(rf, run) && 0 < j < |run|
    ensures Later(rf, run[j - 1], run[j])
  {
    RunNext(rf, run, j);
    OnwardFollows(rf, run[j - 1], run[j]);
  }

  /** `t` comes after `s` in some run. */
  ghost predicate Later(rf: RepFactor, s: State, t: State)
  {
    Inv(s) && Inv(t) && Follows(rf, s, t)
  }

  lemma LaterTransitive(rf: RepFactor, s: State, t: State, u: State)
    requires Later(rf, s, t) && Later(rf, t, u)
    ensures Later(rf, s, u)
  {
  }

  lemma {:induction false} RunFollows(rf: RepFactor, run: seq<State>, i: nat, j: nat)
    requires Run(rf, run) && i <= j < |run|
    ensures Later(rf, run[i], run[j])
  {
    if i == j {
      RunInv(rf, run, i);
    } else {
      RunFollows(rf, run, i, j - 1);
      RunStep(rf, run, j);
      LaterTransitive(rf, run[i], run[j - 1], run[j]);
    }
  }

  /** A run can be carried on by any command. */
  lemma RunExtends(rf: RepFactor, run: seq<State>, t: State)
    requires Run(rf, run) && Next(rf, run[|run| - 1], t)
    ensures Run(rf, run + [t])
  {
    var run' := run + [t];
    forall i: nat
      ensures StepAt(rf, run', i)
    {
      assert StepAt(rf, run, i);
      if i + 1 < |run| { assert run'[i] == run[i] && run'[i + 1] == run[i + 1]; }
    }
  }

  // ---------------------------------------------------------------- theorems about runs

  /** A (shard, epoch) pair names one replica list and one key range for all time, through deletions and
      re-creations of collections. */
  lemma EpochNamesOneConfiguration(rf: RepFactor, run: seq<State>, i: nat, j: nat, sid: Id)
    requires Run(rf, run) && i < |run| && j < |run|
    requires Exists(run[i], sid) && Exists(run[j], sid) && ShardOf(run[i], sid).epoch == ShardOf(run[j], sid).epoch
    ensures ShardOf(run[i], sid).replicas == ShardOf(run[j], sid).replicas
    ensures ShardOf(run[i], sid).start == ShardOf(run[j], sid).start && ShardOf(run[i], sid).end == ShardOf(run[j], sid).end
    ensures ShardOf(run[i], sid).collection == ShardOf(run[j], sid).collection
  {
    if i <= j { RunFollows(rf, run, i, j); } else { RunFollows(rf, run, j, i); }
  }

  /** Equal global epochs mean the same shards, with the same key ranges and replica lists. */
  lemma AssignmentsEpochNamesLayout(rf: RepFactor, run: seq<State>, i: nat, j: nat)
    requires Run(rf, run) && i < |run| && j < |run| && run[i].assignmentsEpoch == run[j].assignmentsEpoch
    ensures SameLayout(run[i], run[j])
  {
    if i <= j { RunFollows(rf, run, i, j); } else { RunFollows(rf, run, j, i); }
  }

  /** A shard that has had `c` replicas never again has fewer than min(c, rf) while it exists. */
  lemma ReplicaFloor(rf: RepFactor, run: seq<State>, i: nat, j: nat, sid: Id)
    requires Run(rf, run) && i <= j < |run| && Exists(run[i], sid) && Exists(run[j], sid)
    ensures |ShardOf(run[j], sid).replicas| >= Min(|ShardOf(run[i], sid).replicas|, rf)
  {
    RunFollows(rf, run, i, j);
  }

  /** A step whose command is not a move onto a worker that is already a replica. */
  ghost predicate Guarded(rf: RepFactor, s: State, cmd: Command, env: Env, t: State)
  {
    Step(rf, s, cmd, env, t) && MoveGuard(s, cmd)
  }

  ghost predicate GuardedNext(rf: RepFactor, s: State, t: State)
  {
    exists cmd: Command, env: Env :: Guarded(rf, s, cmd, env, t)
  }

  ghost predicate GuardedAt(rf: RepFactor, run: seq<State>, i: nat)
  {
    i + 1 < |run| ==> GuardedNext(rf, run[i], run[i + 1])
  }

  lemma GuardedStepDistinct(rf: RepFactor, s: State, t: State)
    requires Inv(s) && ReplicasDistinct(s) && GuardedNext(rf, s, t)
    ensures ReplicasDistinct(t)
  {
    var cmd: Command, env: Env :| Guarded(rf, s, cmd, env, t);
    StepDistinct(rf, s, cmd, env);
  }

  /** Where no move lands on a worker that is already a replica, no reachable state has a replica list with duplicates. */
  lemma {:induction false} GuardedRunDistinct(rf: RepFactor, run: seq<State>, i: nat)
    requires Run(rf, run) && i < |run| && forall k: nat :: k < i ==> GuardedAt(rf, run, k)
    ensures ReplicasDistinct(run[i])
  {
    if i == 0 {
      InitialInv();
    } else {
      GuardedRunDistinct(rf, run, i - 1);
      RunInv(rf, run, i - 1);
      assert GuardedAt(rf, run, i - 1);
      GuardedStepDistinct(rf, run[i - 1], run[i]);
    }
  }

  /** A step whose command is not a creation that finds no worker left to place replicas on. */
  ghost predicate Placing(rf: RepFactor, s: State, cmd: Command, env: Env, t: State)
  {
    Step(rf, s, cmd, env, t) && !PlacesNothing(s, cmd, env)
  }

  ghost predicate PlacingNext(rf: RepFactor, s: State, t: State)
  {
    exists cmd: Command, env: Env :: Placing(rf, s, cmd, env, t)
  }

  ghost predicate PlacingAt(rf: RepFactor, run: seq<State>, i: nat)
  {
    i + 1 < |run| ==> PlacingNext(rf, run[i], run[i + 1])
  }

  lemma PlacingStepPopulated(rf: RepFactor, s: State, t: State)
    requires Inv(s) && Populated(s) && Next(rf, s, t)
    ensures Populated(t) <==> PlacingNext(rf, s, t)
  {
    if PlacingNext(rf, s, t) {
      var cmd: Command, env: Env :| Placing(rf, s, cmd, env, t);
      StepPopulatedIff(rf, s, cmd, env);
    } else {
      var cmd: Command, env: Env :| Step(rf, s, cmd, env, t);
      assert !Placing(rf, s, cmd, env, t);
      StepPopulatedIff(rf, s, cmd, env);
    }
  }

  /** Every shard of every state of a run has a replica if and only if no step is a creation that places nothing. */
  lemma {:induction false} RunPopulatedIff(rf: RepFactor, run: seq<State>, n: nat)
    requires Run(rf, run) && n < |run|
    ensures (forall i: nat :: i <= n ==> Populated(run[i])) <==> (forall k: nat :: k < n ==> PlacingAt(rf, run, k))
  {
    if n > 0 {
      RunPopulatedIff(rf, run, n - 1);
      RunNext(rf, run, n);
      if forall k: nat :: k < n - 1 ==> PlacingAt(rf, run, k) {
        assert Populated(run[n - 1]);
        PlacingStepPopulated(rf, run[n - 1], run[n]);
        assert PlacingAt(rf, run, n - 1) <==> PlacingNext(rf, run[n - 1], run[n]);
      }
    }
  }

  /** In every reachable state the shards of each collection partition the key space, shard ids are unique across
      collections, and every replica is a registered worker; a refused command changes nothing at all. */
  lemma ReachableStates(rf: RepFactor, run: seq<State>, i: nat, cmd: Command, env: Env)
    requires Run(rf, run) && i < |run|
    ensures Inv(run[i])
    ensures Apply(rf, run[i], cmd, env).reply.Refused? ==> Apply(rf, run[i], cmd, env).state == run[i]
  {
    RunInv(rf, run, i);
  }
}
