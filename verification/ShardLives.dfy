/** The life of a shard in a run: its birth, and what each command changes of it. */
module ShardLives {
  import opened Prelude
  import opened FsmTypes
  import opened FsmModel
  import opened FsmInvariant
  import opened History
  import opened CommandEffects

  // ---------------------------------------------------------------- births

  ghost predicate Newborn(sh: Shard)
  {
    && sh.epoch == 1 && !sh.bootstrapped && sh.leader == 0 && sh.bootstrapMembers == sh.replicas
    && sh.qps == 0.0 && sh.latency == 0.0
  }

  /** A shard that was not there before a command is newly created by it. */
  lemma StepBirth(rf: RepFactor, s: State, cmd: Command, env: Env, sid: Id)
    requires Inv(s) && ValidEnv(s, cmd, env) && Headroom(s, cmd)
    requires Exists(Apply(rf, s, cmd, env).state, sid) && !Exists(s, sid)
    ensures Newborn(ShardOf(Apply(rf, s, cmd, env).state, sid))
  {
    var t := Apply(rf, s, cmd, env).state;
    if cmd.CreateCollection? {
      CreatedShards(rf, s, cmd, env);
      var name := Home(t, sid);
      assert name != cmd.name ==> Hosts(s, name, sid);
      assert ShardOk(s.workers, t.nextShard, cmd.name, sid, t.collections[cmd.name].shards[sid]);
    } else {
      NoBirth(rf, s, cmd, env, sid);
    }
  }

  /** A shard's command replaces that shard, or does nothing. */
  lemma ShardCommandPuts(rf: RepFactor, s: State, cmd: Command, env: Env)
    requires OnShards(cmd)
    ensures var t := Apply(rf, s, cmd, env).state;
      t == s || (Exists(s, cmd.shard) && exists sh :: t == PutShard(s, cmd.shard, sh).(assignmentsEpoch := t.assignmentsEpoch))
  {
    var t := Apply(rf, s, cmd, env).state;
    if t != s {
      var sh := t.collections[Home(s, cmd.shard)].shards[cmd.shard];
      assert t == PutShard(s, cmd.shard, sh).(assignmentsEpoch := t.assignmentsEpoch);
    }
  }

  lemma NoShardBirth(rf: RepFactor, s: State, cmd: Command, env: Env, sid: Id)
    requires HomesUnique(s) && OnShards(cmd) && Exists(Apply(rf, s, cmd, env).state, sid)
    ensures Exists(s, sid)
  {
    ShardCommandPuts(rf, s, cmd, env);
    var t := Apply(rf, s, cmd, env).state;
    if t != s {
      var sh :| t == PutShard(s, cmd.shard, sh).(assignmentsEpoch := t.assignmentsEpoch);
      PutView(s, cmd.shard, sh, t.assignmentsEpoch, sid);
    }
  }

  lemma NoOtherBirth(rf: RepFactor, s: State, cmd: Command, env: Env, sid: Id)
    requires !OnShards(cmd) && !cmd.CreateCollection? && Exists(Apply(rf, s, cmd, env).state, sid)
    ensures Exists(s, sid)
  {
    var t := Apply(rf, s, cmd, env).state;
    assert Hosts(s, Home(t, sid), sid);
  }

  lemma NoBirth(rf: RepFactor, s: State, cmd: Command, env: Env, sid: Id)
    requires Inv(s) && !cmd.CreateCollection? && Exists(Apply(rf, s, cmd, env).state, sid)
    ensures Exists(s, sid)
  {
    if OnShards(cmd) {
      NoShardBirth(rf, s, cmd, env, sid);
    } else {
      NoOtherBirth(rf, s, cmd, env, sid);
    }
  }

  lemma NextBirth(rf: RepFactor, s: State, t: State, sid: Id)
    requires Onward(rf, s, t) && Exists(t, sid) && !Exists(s, sid)
    ensures Newborn(ShardOf(t, sid))
  {
    var cmd: Command, env: Env :| Step(rf, s, cmd, env, t);
    StepBirth(rf, s, cmd, env, sid);
  }

  lemma RunBirth(rf: RepFactor, run: seq<State>, i: nat, sid: Id)
    requires Run(rf, run) && 0 < i < |run| && Exists(run[i], sid) && !Exists(run[i - 1], sid)
    ensures Newborn(ShardOf(run[i], sid))
  {
    RunNext(rf, run, i);
    NextBirth(rf, run[i - 1], run[i], sid);
  }

  /** Every shard of a run has a birth: the state that first has it, with its creation-time replicas. */
  lemma {:induction false} Birth(rf: RepFactor, run: seq<State>, i: nat, sid: Id) returns (b: nat)
    requires Run(rf, run) && i < |run| && Exists(run[i], sid)
    ensures b <= i && Exists(run[b], sid) && Newborn(ShardOf(run[b], sid))
    ensures b == 0 || !Exists(run[b - 1], sid)
  {
    b := i;
    if Exists(run[i - 1], sid) {
      b := Birth(rf, run, i - 1, sid);
    } else {
      RunBirth(rf, run, i, sid);
    }
  }

  /** Before its first state a shard never existed. */
  lemma NeverBefore(rf: RepFactor, run: seq<State>, j: nat, k: nat, sid: Id)
    requires Run(rf, run) && k < j < |run| && Exists(run[j], sid) && !Exists(run[j - 1], sid)
    ensures !Exists(run[k], sid)
  {
    RunFollows(rf, run, k, j - 1);
    RunStep(rf, run, j);
  }

  // ---------------------------------------------------------------- one command

  /** A shard across one entry: its leader and what it is told of bootstrapping change with a leader report alone, its
      metrics with a metrics report alone. */
  ghost predicate Across(a: Shard, b: Shard, cmd: Command, sid: Id)
  {
    && (if cmd.UpdateShardLeader? && cmd.shard == sid then
          && b.leader == cmd.leader && (b.bootstrapped <==> a.bootstrapped || cmd.leader > 0)
          && b.bootstrapMembers == if cmd.leader > 0 then [] else a.bootstrapMembers
        else b.leader == a.leader && b.bootstrapped == a.bootstrapped && b.bootstrapMembers == a.bootstrapMembers)
    && (if cmd.UpdateShardMetrics? && cmd.shard == sid then
          Smoothed(a.qps, b.qps, cmd.qps) && Smoothed(a.latency, b.latency, cmd.latency)
        else b.qps == a.qps && b.latency == a.latency)
  }

  /** One of the three commands on replicas. */
  ghost predicate OnReplicas(cmd: Command)
  {
    cmd.AddShardReplica? || cmd.RemoveShardReplica? || cmd.MoveShard?
  }

  lemma ReplicasOnly(rf: RepFactor, s: State, cmd: Command, env: Env)
    requires OnReplicas(cmd)
    ensures var t := Apply(rf, s, cmd, env).state;
      t == s || (Exists(s, cmd.shard) && exists replicas :: t == Reconfigure(s, cmd.shard, replicas))
  {
  }

  lemma ReplicasAcross(rf: RepFactor, s: State, cmd: Command, env: Env, t: State, reply: Reply, sid: Id)
    requires Applies(rf, s, cmd, env, t, reply) && OnReplicas(cmd) && Exists(s, sid)
    ensures Exists(t, sid) && Across(ShardOf(s, sid), ShardOf(t, sid), cmd, sid)
  {
    ReplicasOnly(rf, s, cmd, env);
    if t != s {
      var replicas :| t == Reconfigure(s, cmd.shard, replicas);
      ReconfigureView(s, cmd.shard, replicas, sid);
    }
  }

  lemma LeaderAcross(rf: RepFactor, s: State, cmd: Command, env: Env, t: State, reply: Reply, sid: Id)
    requires Applies(rf, s, cmd, env, t, reply) && cmd.UpdateShardLeader? && Exists(s, sid)
    ensures Exists(t, sid) && Across(ShardOf(s, sid), ShardOf(t, sid), cmd, sid)
  {
    LeaderEffect(rf, s, cmd.shard, cmd.leader, env, t, reply);
    if t != s { assert SameShard(s, t, sid, cmd.shard); }
  }

  lemma MetricsAcross(rf: RepFactor, s: State, cmd: Command, env: Env, t: State, reply: Reply, sid: Id)
    requires Applies(rf, s, cmd, env, t, reply) && cmd.UpdateShardMetrics? && Exists(s, sid)
    ensures Exists(t, sid) && Across(ShardOf(s, sid), ShardOf(t, sid), cmd, sid)
  {
    MetricsEffect(rf, s, cmd.shard, cmd.qps, cmd.latency, env, t, reply);
    if t != s { assert SameShard(s, t, sid, cmd.shard); }
  }

  lemma OtherCommandAcross(rf: RepFactor, s: State, cmd: Command, env: Env, t: State, sid: Id)
    requires Step(rf, s, cmd, env, t) && Inv(s) && !OnShards(cmd) && Exists(s, sid) && Exists(t, sid)
    ensures ShardOf(t, sid) == ShardOf(s, sid)
  {
    StepInv(rf, s, cmd, env);
    OtherCommandKeeps(rf, s, cmd, env, t, Home(s, sid));
    HomeIs(s, Home(s, sid), sid);
    if Home(s, sid) in t.collections { HomeIs(t, Home(s, sid), sid); } else { assert Hosts(s, Home(t, sid), sid); }
  }

  lemma OtherCommandKeeps(rf: RepFactor, s: State, cmd: Command, env: Env, t: State, name: string)
    requires Step(rf, s, cmd, env, t) && !OnShards(cmd) && name in s.collections
    ensures name in t.collections ==> t.collections[name] == s.collections[name]
    ensures name !in t.collections ==> t.collections == s.collections - {name}
  {
  }

  /** A shard across one command. */
  lemma StepAcross(rf: RepFactor, s: State, cmd: Command, env: Env, t: State, sid: Id)
    requires Inv(s) && Step(rf, s, cmd, env, t) && Exists(s, sid) && Exists(t, sid)
    ensures Across(ShardOf(s, sid), ShardOf(t, sid), cmd, sid)
  {
    var reply := Apply(rf, s, cmd, env).reply;
    if OnReplicas(cmd) {
      ReplicasAcross(rf, s, cmd, env, t, reply, sid);
    } else if cmd.UpdateShardLeader? {
      LeaderAcross(rf, s, cmd, env, t, reply, sid);
    } else if cmd.UpdateShardMetrics? {
      MetricsAcross(rf, s, cmd, env, t, reply, sid);
    } else {
      OtherCommandAcross(rf, s, cmd, env, t, sid);
    }
  }

  // ---------------------------------------------------------------- led or not

  /** State `b` is the first of the shard's life. */
  ghost predicate BornAt(run: seq<State>, b: nat, sid: Id)
  {
    b < |run| && Exists(run[b], sid) && (b == 0 || !Exists(run[b - 1], sid))
  }

  /** No state from `b` to `i` has recorded a leader of the shard. */
  ghost predicate NeverLed(run: seq<State>, b: nat, i: nat, sid: Id)
    requires i < |run|
  {
    forall j: nat :: b <= j <= i && Exists(run[j], sid) ==> ShardOf(run[j], sid).leader == 0
  }

  lemma NextLed(rf: RepFactor, s: State, t: State, sid: Id)
    requires Onward(rf, s, t) && Exists(s, sid) && Exists(t, sid) && ShardOf(t, sid).bootstrapped
    ensures ShardOf(s, sid).bootstrapped || ShardOf(t, sid).leader > 0
  {
    var cmd: Command, env: Env :| Step(rf, s, cmd, env, t);
    StepAcross(rf, s, cmd, env, t, sid);
  }

  /** A shard is bootstrapped exactly from the first leader of its life on, and till then keeps as bootstrap members the
      replicas it was born with. */
  lemma {:induction false} BootstrappedIffLed(rf: RepFactor, run: seq<State>, b: nat, i: nat, sid: Id)
    requires Run(rf, run) && BornAt(run, b, sid) && b <= i < |run| && Exists(run[i], sid)
    ensures ShardOf(run[i], sid).bootstrapped <==> !NeverLed(run, b, i, sid)
    ensures !ShardOf(run[i], sid).bootstrapped ==> ShardOf(run[i], sid).bootstrapMembers == ShardOf(run[b], sid).replicas
  {
    if b == i {
      RunBirth(rf, run, b, sid);
    } else {
      ExistsBetween(rf, run, b, i - 1, i, sid);
      BootstrappedIffLed(rf, run, b, i - 1, sid);
      LedNext(rf, run, i, sid);
      assert NeverLed(run, b, i, sid) <==> NeverLed(run, b, i - 1, sid) && ShardOf(run[i], sid).leader == 0;
    }
  }

  /** From one state to the next a shard becomes bootstrapped exactly by a leader, and keeps its bootstrap members till then. */
  lemma LedNext(rf: RepFactor, run: seq<State>, i: nat, sid: Id)
    requires Run(rf, run) && 0 < i < |run| && Exists(run[i - 1], sid) && Exists(run[i], sid)
    ensures var a, b := ShardOf(run[i - 1], sid), ShardOf(run[i], sid);
      (b.bootstrapped <==> a.bootstrapped || b.leader > 0) && (!b.bootstrapped ==> b.bootstrapMembers == a.bootstrapMembers)
  {
    RunNext(rf, run, i);
    RunStep(rf, run, i);
    if ShardOf(run[i], sid).bootstrapped { NextLed(rf, run[i - 1], run[i], sid); }
    if ShardOf(run[i], sid).leader > 0 { LeaderIsBootstrapped(rf, run, i, sid); }
  }

  lemma LeaderIsBootstrapped(rf: RepFactor, run: seq<State>, i: nat, sid: Id)
    requires Run(rf, run) && i < |run| && Exists(run[i], sid) && ShardOf(run[i], sid).leader > 0
    ensures ShardOf(run[i], sid).bootstrapped
  {
    RunInv(rf, run, i);
    assert Hosts(run[i], Home(run[i], sid), sid);
  }

  /** A shard that is there at two moments was there at all moments between. */
  lemma ExistsBetween(rf: RepFactor, run: seq<State>, b: nat, k: nat, i: nat, sid: Id)
    requires Run(rf, run) && b <= k <= i < |run| && Exists(run[b], sid) && Exists(run[i], sid)
    ensures Exists(run[k], sid)
  {
    RunFollows(rf, run, b, k);
    RunFollows(rf, run, k, i);
    assert Hosts(run[b], Home(run[b], sid), sid);
  }
}
