/** What rebalancing guarantees in every execution: caught-up targets, spared replicas, bounds and deadlines. */
module MoveSafety {
  import opened Prelude
  import opened FsmTypes
  import opened FsmModel
  import opened FsmInvariant
  import opened History
  import opened MovePlan
  import opened Rebalance

  // ---------------------------------------------------------------- the target has caught up

  /** The move of shard `sid` passes from waiting for its target to removing its source. */
  ghost predicate BeginsRemoval(rf: RepFactor, w: World, sid: Id, ok: bool)
  {
    && |w.run| > 0 && sid in w.moves && w.moves[sid].phase == WaitTarget
    && var w' := AdvanceMove(rf, w, sid, ok); sid in w'.moves && w'.moves[sid].phase == RemoveSource
  }

  lemma BeginsByPassing(rf: RepFactor, w: World, sid: Id, ok: bool)
    requires BeginsRemoval(rf, w, sid, ok)
    ensures Passes(rf, w, sid, AdvanceMove(rf, w, sid, ok).moves[sid])
  {
  }

  /** In every execution, a move that starts removing its source has its target among the shard's replicas now, and the
      target has reported, at the shard's present epoch, that it reached the very index the move recorded, which the
      leader had reported at that same epoch. */
  lemma RemovalWaitsForTarget(rf: RepFactor, cap: int, ex: Execution, n: nat, sid: Id, ok: bool)
    returns (index: nat, applied: nat)
    requires Executes(rf, cap, ex) && n < |ex.worlds| && BeginsRemoval(rf, ex.worlds[n], sid, ok)
    ensures var w := ex.worlds[n]; var target := w.moves[sid].move.target;
      && HasReplica(Current(w), sid, target)
      && CaughtUp(w.run, w.reports, sid, target, ShardOf(Current(w), sid).epoch, index, applied)
    ensures index == AdvanceMove(rf, ex.worlds[n], sid, ok).moves[sid].requiredIndex
    ensures ShardOf(Current(ex.worlds[n]), sid).epoch == AdvanceMove(rf, ex.worlds[n], sid, ok).moves[sid].requiredEpoch
  {
    ExecutionGood(rf, cap, ex, n);
    var w := ex.worlds[n];
    BeginsByPassing(rf, w, sid, ok);
    var m' := AdvanceMove(rf, w, sid, ok).moves[sid];
    index := m'.requiredIndex;
    applied := PassesOnlyCaughtUp(rf, cap, w, sid, m');
  }

  // ---------------------------------------------------------------- what moves do in executions

  ghost function DecisionAt(rf: RepFactor, w: World, sid: Id): Decision
    requires |w.run| > 0 && sid in w.moves && Exists(Current(w), sid)
  {
    var sh := ShardOf(Current(w), sid);
    Decide(rf, w.moves[sid], sh, ViewOf(w, w.moves[sid], sh), w.now)
  }

  /** In every execution, looking at a move proposes only two things: to remove its source, after its target was found
      caught up at some point of the run; or, past the overall timeout, to take back the target the move itself added,
      while the source still holds the shard and the shard has replicas to spare. */
  lemma AdvancesOnlyRemove(rf: RepFactor, cap: int, ex: Execution, n: nat, sid: Id)
    requires Executes(rf, cap, ex) && n < |ex.worlds| && |ex.worlds[n].run| > 0
    requires sid in ex.worlds[n].moves && Exists(Current(ex.worlds[n]), sid) && DecisionAt(rf, ex.worlds[n], sid).Propose?
    ensures var w := ex.worlds[n]; var m, p := w.moves[sid], DecisionAt(rf, w, sid).proposal;
      || (p == RemoveReplica(m.move.source) && TargetCaughtUp(w.run, w.reports, sid, m))
      || (p == RemoveReplica(m.move.target) && m.addedByMove && w.now - m.startedAt > OVERALL_TIMEOUT
          && HasReplica(Current(w), sid, m.move.source) && |ShardOf(Current(w), sid).replicas| > rf)
  {
    ExecutionGood(rf, cap, ex, n);
    var w := ex.worlds[n];
    var m, sh := w.moves[sid], ShardOf(Current(w), sid);
    assert MoveOk(w.run, w.reports, sid, m);
    ProposalsAreOwn(rf, m, sh, ViewOf(w, m, sh), w.now);
  }

  lemma CompletesByFinishing(rf: RepFactor, w: World, sid: Id, ok: bool)
    requires |w.run| > 0 && sid in w.moves && Exists(Current(w), sid)
    requires w.now - w.moves[sid].startedAt <= OVERALL_TIMEOUT && sid !in AdvanceMove(rf, w, sid, ok).moves
    ensures DecisionAt(rf, w, sid).Finish?
  {
  }

  /** In every execution, a move that completes within its time moved its shard: its target was found caught up at some
      point of the run, the freshest membership no longer has its source, and the source is not the leader. */
  lemma CompletedMovesMoved(rf: RepFactor, cap: int, ex: Execution, n: nat, sid: Id, ok: bool)
    requires Executes(rf, cap, ex) && n < |ex.worlds| && |ex.worlds[n].run| > 0
    requires sid in ex.worlds[n].moves && Exists(Current(ex.worlds[n]), sid)
    requires ex.worlds[n].now - ex.worlds[n].moves[sid].startedAt <= OVERALL_TIMEOUT
    requires sid !in AdvanceMove(rf, ex.worlds[n], sid, ok).moves
    ensures var w := ex.worlds[n]; var m := w.moves[sid];
      && TargetCaughtUp(w.run, w.reports, sid, m) && ShardOf(Current(w), sid).leader != m.move.source
      && sid in w.membership && w.now - w.membership[sid].at <= REPORT_STALE_AFTER && m.move.source !in w.membership[sid].nodes
      && (m.removeConfigChange > 0 ==> w.membership[sid].configChange > m.removeConfigChange)
  {
    ExecutionGood(rf, cap, ex, n);
    var w := ex.worlds[n];
    var m, sh := w.moves[sid], ShardOf(Current(w), sid);
    assert MoveOk(w.run, w.reports, sid, m);
    CompletesByFinishing(rf, w, sid, ok);
    CompletionMeansSourceGone(rf, m, sh, ViewOf(w, m, sh), w.now);
  }

  // ---------------------------------------------------------------- the target stays

  /** Commands that take a replica away from a shard, or the shard away. */
  ghost predicate Drops(s: State, cmd: Command, sid: Id, x: Id)
  {
    || cmd == RemoveShardReplica(sid, x)
    || (cmd.MoveShard? && cmd.shard == sid && cmd.source == x)
    || (cmd.DeleteCollection? && Hosts(s, cmd.name, sid))
  }

  ghost predicate Holding(s: State, sid: Id, x: Id)
  {
    Inv(s) && HasReplica(s, sid, x)
  }

  /** Replacing one shard spares a replica the replacement still lists. */
  lemma PutSpares(s: State, id: Id, sh: Shard, ae: nat, sid: Id, x: Id)
    requires Inv(s) && Exists(s, id) && HasReplica(s, sid, x) && (id == sid ==> x in sh.replicas)
    ensures HasReplica(PutShard(s, id, sh).(assignmentsEpoch := ae), sid, x)
  {
    PutView(s, id, sh, ae, sid);
  }

  lemma ReconfigureSpares(s: State, id: Id, replicas: seq<Id>, sid: Id, x: Id)
    requires Inv(s) && Exists(s, id) && HasReplica(s, sid, x) && (id == sid ==> x in replicas)
    ensures HasReplica(Reconfigure(s, id, replicas), sid, x)
  {
    var sh := ShardOf(s, id);
    PutSpares(s, id, sh.(replicas := replicas, epoch := Inc64(sh.epoch)), BumpEpoch(s.assignmentsEpoch), sid, x);
  }

  lemma RemoveSpares(rf: RepFactor, s: State, id: Id, w: Id, sid: Id, x: Id)
    requires Inv(s) && HasReplica(s, sid, x) && (id == sid ==> w != x)
    ensures HasReplica(ApplyRemove(rf, s, id, w).state, sid, x)
  {
    if ApplyRemove(rf, s, id, w).state != s {
      var replicas := ShardOf(s, id).replicas;
      var i := IndexOf(replicas, w);
      if id == sid { OthersRemain(replicas, i, 0, x); }
      ReconfigureSpares(s, id, Without(replicas, i), sid, x);
    }
  }

  lemma MoveSpares(s: State, id: Id, source: Id, target: Id, sid: Id, x: Id)
    requires Inv(s) && HasReplica(s, sid, x) && (id == sid ==> source != x)
    ensures HasReplica(ApplyMove(s, id, source, target).state, sid, x)
  {
    if ApplyMove(s, id, source, target).state != s {
      var replicas := ShardOf(s, id).replicas;
      var i := IndexOf(replicas, source);
      if id == sid { OthersRemain(replicas, i, target, x); }
      ReconfigureSpares(s, id, replicas[i := target], sid, x);
    }
  }

  lemma UpdateSpares(s: State, id: Id, sh: Shard, sid: Id, x: Id)
    requires Inv(s) && Exists(s, id) && HasReplica(s, sid, x) && sh.replicas == ShardOf(s, id).replicas
    ensures HasReplica(PutShard(s, id, sh), sid, x)
  {
    PutSpares(s, id, sh, s.assignmentsEpoch, sid, x);
    assert PutShard(s, id, sh).(assignmentsEpoch := s.assignmentsEpoch) == PutShard(s, id, sh);
  }

  lemma LeaderSpares(s: State, id: Id, leader: Id, sid: Id, x: Id)
    requires Holding(s, sid, x)
    ensures HasReplica(ApplyLeader(s, id, leader).state, sid, x)
  {
    if Exists(s, id) {
      var sh := ShardOf(s, id).(leader := leader);
      UpdateSpares(s, id, if leader > 0 then sh.(bootstrapped := true, bootstrapMembers := []) else sh, sid, x);
    }
  }

  lemma MetricsSpare(s: State, id: Id, qps: real, latency: real, sid: Id, x: Id)
    requires Holding(s, sid, x)
    ensures HasReplica(ApplyMetrics(s, id, qps, latency).state, sid, x)
  {
    if Exists(s, id) { UpdateSpares(s, id, Measured(ShardOf(s, id), qps, latency), sid, x); }
  }

  lemma AddSpares(s: State, id: Id, w: Id, now: int, sid: Id, x: Id)
    requires Holding(s, sid, x)
    ensures HasReplica(ApplyAdd(s, id, w, now).state, sid, x)
  {
    if ApplyAdd(s, id, w, now).state != s { ReconfigureSpares(s, id, ShardOf(s, id).replicas + [w], sid, x); }
  }

  lemma RemoveCommandSpares(rf: RepFactor, s: State, id: Id, w: Id, env: Env, sid: Id, x: Id)
    requires Holding(s, sid, x) && !Drops(s, RemoveShardReplica(id, w), sid, x)
    ensures HasReplica(Apply(rf, s, RemoveShardReplica(id, w), env).state, sid, x)
  {
    RemoveSpares(rf, s, id, w, sid, x);
  }

  lemma MoveCommandSpares(rf: RepFactor, s: State, id: Id, source: Id, target: Id, env: Env, sid: Id, x: Id)
    requires Holding(s, sid, x) && !Drops(s, MoveShard(id, source, target), sid, x)
    ensures HasReplica(Apply(rf, s, MoveShard(id, source, target), env).state, sid, x)
  {
    MoveSpares(s, id, source, target, sid, x);
  }

  lemma ShardCommandSpares(rf: RepFactor, s: State, cmd: Command, env: Env, sid: Id, x: Id)
    requires OnShards(cmd) && Holding(s, sid, x) && !Drops(s, cmd, sid, x)
    ensures HasReplica(Apply(rf, s, cmd, env).state, sid, x)
  {
    match cmd
    case UpdateShardLeader(id, leader) => LeaderSpares(s, id, leader, sid, x);
    case UpdateShardMetrics(id, qps, latency) => MetricsSpare(s, id, qps, latency, sid, x);
    case AddShardReplica(id, w) => AddSpares(s, id, w, env.now, sid, x);
    case RemoveShardReplica(id, w) => RemoveCommandSpares(rf, s, id, w, env, sid, x);
    case MoveShard(id, source, target) => MoveCommandSpares(rf, s, id, source, target, env, sid, x);
  }

  /** A step that keeps the collection holding the shard as it is spares its replicas. */
  lemma SameHomeSpares(s: State, t: State, sid: Id, x: Id)
    requires Exists(s, sid) && HomesUnique(t) && x in ShardOf(s, sid).replicas
    requires Home(s, sid) in t.collections && t.collections[Home(s, sid)] == s.collections[Home(s, sid)]
    ensures HasReplica(t, sid, x)
  {
    assert Hosts(t, Home(s, sid), sid);
    HomeIs(t, Home(s, sid), sid);
  }

  lemma OtherCommandSpares(rf: RepFactor, s: State, cmd: Command, env: Env, sid: Id)
    requires !OnShards(cmd) && Exists(s, sid) && !Drops(s, cmd, sid, 0)
    ensures var t := Apply(rf, s, cmd, env).state;
      Home(s, sid) in t.collections && t.collections[Home(s, sid)] == s.collections[Home(s, sid)]
  {
  }

  lemma StepSpares(rf: RepFactor, s: State, cmd: Command, env: Env, sid: Id, x: Id)
    requires Inv(s) && ValidEnv(s, cmd, env) && Headroom(s, cmd) && HasReplica(s, sid, x) && !Drops(s, cmd, sid, x)
    ensures HasReplica(Apply(rf, s, cmd, env).state, sid, x)
  {
    if OnShards(cmd) {
      ShardCommandSpares(rf, s, cmd, env, sid, x);
    } else {
      StepInv(rf, s, cmd, env);
      OtherCommandSpares(rf, s, cmd, env, sid);
      SameHomeSpares(s, Apply(rf, s, cmd, env).state, sid, x);
    }
  }

  /** Some command leads from `s` to `t` and leaves the replica alone. */
  ghost predicate Spares(rf: RepFactor, s: State, cmd: Command, env: Env, t: State, sid: Id, x: Id)
  {
    Step(rf, s, cmd, env, t) && !Drops(s, cmd, sid, x)
  }

  ghost predicate Spared(rf: RepFactor, s: State, t: State, sid: Id, x: Id)
  {
    exists cmd: Command, env: Env :: Spares(rf, s, cmd, env, t, sid, x)
  }

  ghost predicate SparedAt(rf: RepFactor, run: seq<State>, k: nat, sid: Id, x: Id)
  {
    k + 1 < |run| ==> Spared(rf, run[k], run[k + 1], sid, x)
  }

  /** No command between the two states of the run takes the replica away. */
  ghost predicate SparedBetween(rf: RepFactor, run: seq<State>, i: nat, j: nat, sid: Id, x: Id)
  {
    forall k: nat :: i <= k < j ==> SparedAt(rf, run, k, sid, x)
  }

  ghost predicate SparedSpan(rf: RepFactor, run: seq<State>, i: nat, j: nat, sid: Id, x: Id)
  {
    Run(rf, run) && SparedBetween(rf, run, i, j, sid, x) && i <= j < |run|
  }

  lemma SparedStays(rf: RepFactor, s: State, t: State, sid: Id, x: Id)
    requires Inv(s) && HasReplica(s, sid, x) && Spared(rf, s, t, sid, x)
    ensures HasReplica(t, sid, x)
  {
    var cmd: Command, env: Env :| Spares(rf, s, cmd, env, t, sid, x);
    StepSpares(rf, s, cmd, env, sid, x);
  }

  lemma {:induction false} SparedReplicaStays(rf: RepFactor, run: seq<State>, i: nat, j: nat, sid: Id, x: Id)
    requires SparedSpan(rf, run, i, j, sid, x) && HasReplica(run[i], sid, x)
    ensures HasReplica(run[j], sid, x)
  {
    if i < j {
      SparedReplicaStays(rf, run, i, j - 1, sid, x);
      RunInv(rf, run, j - 1);
      assert SparedAt(rf, run, j - 1, sid, x);
      SparedStays(rf, run[j - 1], run[j], sid, x);
    }
  }

  lemma RemovalSpares(rf: RepFactor, run: seq<State>, run': seq<State>, sid: Id, source: Id, target: Id)
    requires |run| > 0 && Inv(run[|run| - 1]) && source != target && HasReplica(run[|run| - 1], sid, target)
    requires run' == run || run' == run + [ApplyRemove(rf, run[|run| - 1], sid, source).state]
    ensures HasReplica(run'[|run'| - 1], sid, target)
  {
    RemoveSpares(rf, run[|run| - 1], sid, source, sid, target);
  }

  /** A replica nothing takes away between worlds `n` and `k` of an execution is still there at `k`. */
  lemma SparedUntil(rf: RepFactor, cap: int, ex: Execution, n: nat, k: nat, sid: Id, x: Id)
    requires Executes(rf, cap, ex) && n <= k < |ex.worlds| && |ex.worlds[n].run| > 0 && |ex.worlds[k].run| > 0
    requires HasReplica(Current(ex.worlds[n]), sid, x)
    requires SparedBetween(rf, ex.worlds[k].run, |ex.worlds[n].run| - 1, |ex.worlds[k].run| - 1, sid, x)
    ensures HasReplica(Current(ex.worlds[k]), sid, x) && Inv(Current(ex.worlds[k]))
  {
    var u, w := ex.worlds[n], ex.worlds[k];
    ExecutionGood(rf, cap, ex, k);
    RunsExtend(rf, cap, ex, n, k);
    assert w.run[|u.run| - 1] == Current(u);
    SparedReplicaStays(rf, w.run, |u.run| - 1, |w.run| - 1, sid, x);
    RunInv(rf, w.run, |w.run| - 1);
  }

  /** If nothing else takes the target away between the decision to remove the source (world `n`) and the removal
      (world `k`), then the removal itself leaves the target a replica. */
  lemma RemovalLeavesTarget(rf: RepFactor, cap: int, ex: Execution, n: nat, k: nat, sid: Id, ok: bool)
    requires Executes(rf, cap, ex) && n <= k < |ex.worlds| && |ex.worlds[n].run| > 0 && |ex.worlds[k].run| > 0
    requires sid in ex.worlds[k].moves && ex.worlds[k].moves[sid].phase == RemoveSource
    requires ex.worlds[k].now - ex.worlds[k].moves[sid].startedAt <= OVERALL_TIMEOUT
    requires HasReplica(Current(ex.worlds[n]), sid, ex.worlds[k].moves[sid].move.target)
    requires SparedBetween(rf, ex.worlds[k].run, |ex.worlds[n].run| - 1, |ex.worlds[k].run| - 1, sid, ex.worlds[k].moves[sid].move.target)
    ensures HasReplica(Current(AdvanceMove(rf, ex.worlds[k], sid, ok)), sid, ex.worlds[k].moves[sid].move.target)
  {
    var w := ex.worlds[k];
    SparedUntil(rf, cap, ex, n, k, sid, w.moves[sid].move.target);
    MovesAreBounded(rf, cap, ex, k);
    RemovalSpares(rf, w.run, AdvanceMove(rf, w, sid, ok).run, sid, w.moves[sid].move.source, w.moves[sid].move.target);
  }

  // ---------------------------------------------------------------- bounds

  /** At most `cap` moves are in flight, at most one for each shard, none onto its own source. */
  lemma MovesAreBounded(rf: RepFactor, cap: int, ex: Execution, n: nat)
    requires Executes(rf, cap, ex) && n < |ex.worlds|
    ensures |ex.worlds[n].moves| <= Max(cap, 0)
    ensures forall sid :: sid in ex.worlds[n].moves ==>
      ex.worlds[n].moves[sid].move.shard == sid && ex.worlds[n].moves[sid].move.source != ex.worlds[n].moves[sid].move.target
  {
    ExecutionGood(rf, cap, ex, n);
    forall sid | sid in ex.worlds[n].moves
      ensures MoveOk(ex.worlds[n].run, ex.worlds[n].reports, sid, ex.worlds[n].moves[sid])
    {
    }
  }

  /** Whatever becomes of a move, completed, refused, timed out or rolled back: a shard that had `c` replicas at any
      point of an execution has at least min(c, rf) at every later point at which it exists. */
  lemma MovesKeepFloor(rf: RepFactor, cap: int, ex: Execution, n: nat, k: nat, sid: Id)
    requires Executes(rf, cap, ex) && n <= k < |ex.worlds| && |ex.worlds[n].run| > 0 && |ex.worlds[k].run| > 0
    requires Exists(Current(ex.worlds[n]), sid) && Exists(Current(ex.worlds[k]), sid)
    ensures |ShardOf(Current(ex.worlds[k]), sid).replicas| >= Min(|ShardOf(Current(ex.worlds[n]), sid).replicas|, rf)
  {
    ExecutionGood(rf, cap, ex, k);
    RunsExtend(rf, cap, ex, n, k);
    ReplicaFloor(rf, ex.worlds[k].run, |ex.worlds[n].run| - 1, |ex.worlds[k].run| - 1, sid);
  }

  /** Raft takes the rollback proposals of moves past their overall timeout. */
  ghost predicate Accepting(w: World, a: Action)
  {
    a.Advance? && a.shard in w.moves && w.now - w.moves[a.shard].startedAt > OVERALL_TIMEOUT ==> a.ok
  }

  ghost predicate AllInTime(w: World)
  {
    forall sid :: sid in w.moves ==> InTime(w.moves[sid])
  }

  lemma AdvanceInTime(rf: RepFactor, w: World, sid: Id, ok: bool)
    requires |w.run| > 0 && sid in w.moves && AllInTime(w) && Accepting(w, Advance(sid, ok))
    ensures AllInTime(AdvanceMove(rf, w, sid, ok))
  {
    if Exists(Current(w), sid) {
      var sh := ShardOf(Current(w), sid);
      DecisionInTime(rf, w.moves[sid], sh, ViewOf(w, w.moves[sid], sh), w.now, ok);
    }
  }

  lemma ActionInTime(rf: RepFactor, cap: int, w: World, a: Action)
    requires Enabled(cap, w, a) && AllInTime(w) && Accepting(w, a)
    ensures AllInTime(After(rf, w, a))
  {
    if a.Advance? { AdvanceInTime(rf, w, a.shard, a.ok); }
  }

  lemma {:induction false} ExecutionInTime(rf: RepFactor, cap: int, ex: Execution, n: nat)
    requires Executes(rf, cap, ex) && n < |ex.worlds|
    requires forall i: nat :: i < n && i < |ex.actions| ==> Accepting(ex.worlds[i], ex.actions[i])
    ensures AllInTime(ex.worlds[n])
  {
    if n > 0 {
      ExecutionInTime(rf, cap, ex, n - 1);
      assert StepOk(rf, cap, ex, n - 1);
      ActionInTime(rf, cap, ex.worlds[n - 1], ex.actions[n - 1]);
    }
  }

  /** With raft taking its proposals, a move is gone after it is first looked at thirty seconds past its half hour. */
  lemma MovesEndInTime(rf: RepFactor, cap: int, ex: Execution, n: nat, sid: Id)
    requires Executes(rf, cap, ex) && n < |ex.worlds| && |ex.worlds[n].run| > 0 && sid in ex.worlds[n].moves
    requires forall i: nat :: i < n && i < |ex.actions| ==> Accepting(ex.worlds[i], ex.actions[i])
    requires ex.worlds[n].now >= ex.worlds[n].moves[sid].startedAt + OVERALL_TIMEOUT + RETRY_MAX
    ensures sid !in AdvanceMove(rf, ex.worlds[n], sid, true).moves
  {
    ExecutionInTime(rf, cap, ex, n);
    var w := ex.worlds[n];
    if Exists(Current(w), sid) {
      var sh := ShardOf(Current(w), sid);
      DeadlineEndsMove(rf, w.moves[sid], sh, ViewOf(w, w.moves[sid], sh), w.now);
    }
  }
}
