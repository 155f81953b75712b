/** What a run's commands make of workers and shards: who is healthy, who leads, what was registered and measured. */
module CommandRuns {
  import opened Prelude
  import opened FsmTypes
  import opened FsmModel
  import opened FsmInvariant
  import opened History
  import opened CommandEffects
  import opened ShardLives

  datatype Entry = Entry(cmd: Command, env: Env)

  ghost predicate EntryAt(rf: RepFactor, run: seq<State>, log: seq<Entry>, k: nat)
  {
    k < |log| && k + 1 < |run| ==> Step(rf, run[k], log[k].cmd, log[k].env, run[k + 1])
  }

  /** A run with the entries of its log. */
  ghost predicate Scripted(rf: RepFactor, run: seq<State>, log: seq<Entry>)
  {
    |run| == |log| + 1 && run[0] == Initial && forall k: nat :: EntryAt(rf, run, log, k)
  }

  lemma ScriptedIsRun(rf: RepFactor, run: seq<State>, log: seq<Entry>)
    requires Scripted(rf, run, log)
    ensures Run(rf, run)
  {
    forall i: nat
      ensures StepAt(rf, run, i)
    {
      assert EntryAt(rf, run, log, i);
    }
  }

  ghost function ReplyAt(rf: RepFactor, run: seq<State>, log: seq<Entry>, k: nat): Reply
    requires k < |log| && |run| == |log| + 1
  {
    Apply(rf, run[k], log[k].cmd, log[k].env).reply
  }

  lemma EntryApplies(rf: RepFactor, run: seq<State>, log: seq<Entry>, k: nat)
    requires Scripted(rf, run, log) && k < |log|
    ensures Applies(rf, run[k], log[k].cmd, log[k].env, run[k + 1], ReplyAt(rf, run, log, k))
    ensures ValidEnv(run[k], log[k].cmd, log[k].env)
  {
    ScriptedIsRun(rf, run, log);
    RunInv(rf, run, k);
    assert EntryAt(rf, run, log, k);
  }

  // ---------------------------------------------------------------- health

  /** The entry is a sign of life of the worker: its heartbeat, or a registration that was answered with its id. */
  ghost predicate Beats(rf: RepFactor, run: seq<State>, log: seq<Entry>, k: nat, w: Id)
  {
    && k < |log| && |run| == |log| + 1
    && ( || (log[k].cmd.UpdateWorkerHeartbeat? && log[k].cmd.worker == w)
         || (log[k].cmd.RegisterWorker? && ReplyAt(rf, run, log, k) == Accepted(w)))
  }

  ghost predicate NoBeats(rf: RepFactor, run: seq<State>, log: seq<Entry>, from: nat, to: nat, w: Id)
  {
    forall k: nat :: from <= k < to ==> !Beats(rf, run, log, k, w)
  }

  /** A worker's record across an entry that is no sign of its life: it was there, and at most its state was set. */
  lemma QuietEntry(rf: RepFactor, run: seq<State>, log: seq<Entry>, k: nat, w: Id)
    requires Scripted(rf, run, log) && k < |log| && w in run[k + 1].workers && !Beats(rf, run, log, k, w)
    ensures w in run[k].workers
    ensures var a, b := run[k].workers[w], run[k + 1].workers[w];
      b == if log[k].cmd == UpdateWorkerState(w, b.state) then a.(state := b.state) else a
  {
    EntryApplies(rf, run, log, k);
    QuietCommand(rf, run[k], log[k].cmd, log[k].env, run[k + 1], ReplyAt(rf, run, log, k), w);
  }

  lemma QuietCommand(rf: RepFactor, s: State, cmd: Command, env: Env, t: State, reply: Reply, w: Id)
    requires Applies(rf, s, cmd, env, t, reply) && w in t.workers && !(cmd.RegisterWorker? && reply == Accepted(w))
    requires !(cmd.UpdateWorkerHeartbeat? && cmd.worker == w)
    ensures w in s.workers
    ensures t.workers[w] == if cmd == UpdateWorkerState(w, t.workers[w].state) then s.workers[w].(state := t.workers[w].state) else s.workers[w]
  {
    if OnWorkers(cmd) { QuietOnWorkers(rf, s, cmd, env, t, reply, w); } else { WorkersAlone(rf, s, cmd, env); }
  }

  lemma QuietOnWorkers(rf: RepFactor, s: State, cmd: Command, env: Env, t: State, reply: Reply, w: Id)
    requires Applies(rf, s, cmd, env, t, reply) && w in t.workers && OnWorkers(cmd)
    requires !(cmd.RegisterWorker? && reply == Accepted(w)) && !(cmd.UpdateWorkerHeartbeat? && cmd.worker == w)
    ensures w in s.workers
    ensures t.workers[w] == if cmd == UpdateWorkerState(w, t.workers[w].state) then s.workers[w].(state := t.workers[w].state) else s.workers[w]
  {
  }

  ghost predicate OnWorkers(cmd: Command)
  {
    cmd.RegisterWorker? || cmd.UpdateWorkerHeartbeat? || cmd.UpdateWorkerState? || cmd.RemoveWorker?
  }

  lemma WorkersAlone(rf: RepFactor, s: State, cmd: Command, env: Env)
    requires !OnWorkers(cmd)
    ensures Apply(rf, s, cmd, env).state.workers == s.workers
  {
  }

  /** A registered worker was heard from at its last sign of life, by the clock of that entry. */
  lemma {:induction false} LastBeat(rf: RepFactor, run: seq<State>, log: seq<Entry>, j: nat, w: Id) returns (b: nat)
    requires Scripted(rf, run, log) && j < |run| && w in run[j].workers
    ensures b < j && Beats(rf, run, log, b, w) && NoBeats(rf, run, log, b + 1, j, w)
    ensures run[j].workers[w].lastHeartbeat == log[b].env.now
  {
    if Beats(rf, run, log, j - 1, w) {
      b := j - 1;
      EntryApplies(rf, run, log, b);
      BeatIsHeard(rf, run[b], log[b].cmd, log[b].env, run[j], ReplyAt(rf, run, log, b), w);
    } else {
      QuietEntry(rf, run, log, j - 1, w);
      b := LastBeat(rf, run, log, j - 1, w);
    }
  }

  lemma BeatIsHeard(rf: RepFactor, s: State, cmd: Command, env: Env, t: State, reply: Reply, w: Id)
    requires Applies(rf, s, cmd, env, t, reply) && w in t.workers
    requires (cmd.UpdateWorkerHeartbeat? && cmd.worker == w) || (cmd.RegisterWorker? && reply == Accepted(w))
    ensures t.workers[w].lastHeartbeat == env.now
  {
  }

  /** A worker counts as healthy exactly while it is ready and its last sign of life is less than thirty seconds old. */
  lemma HealthyIff(rf: RepFactor, run: seq<State>, log: seq<Entry>, j: nat, w: Id, now: int) returns (b: nat)
    requires Scripted(rf, run, log) && j < |run| && w in run[j].workers
    ensures b < j && Beats(rf, run, log, b, w) && NoBeats(rf, run, log, b + 1, j, w)
    ensures IsHealthy(run[j].workers, w, now) <==> run[j].workers[w].state == Ready && now - log[b].env.now < 30_000_000_000
  {
    b := LastBeat(rf, run, log, j, w);
  }

  // ---------------------------------------------------------------- states

  /** The entry decides the worker's state: it sets it, or registers the worker. */
  ghost predicate SetsState(run: seq<State>, log: seq<Entry>, k: nat, w: Id, v: WorkerState)
  {
    && k < |log| && |run| == |log| + 1 && w in run[k + 1].workers
    && (log[k].cmd == UpdateWorkerState(w, v) || (w !in run[k].workers && v == Joining))
  }

  ghost predicate Unset(run: seq<State>, log: seq<Entry>, from: nat, to: nat, w: Id)
  {
    forall k: nat, v :: from <= k < to ==> !SetsState(run, log, k, w, v)
  }

  ghost predicate HeartbeatAt(log: seq<Entry>, k: nat, w: Id)
  {
    k < |log| && log[k].cmd.UpdateWorkerHeartbeat? && log[k].cmd.worker == w
  }

  ghost predicate HeartbeatIn(log: seq<Entry>, from: nat, to: nat, w: Id)
  {
    exists k: nat :: from <= k < to && HeartbeatAt(log, k, w)
  }

  /** Entry `k` was the last before state `j` to decide the worker's state, as `v`, and that is its state, or ready where a
      heartbeat has come since to a worker that was joining or unknown. */
  ghost predicate StateSince(run: seq<State>, log: seq<Entry>, j: nat, w: Id, k: nat, v: WorkerState)
    requires j < |run| && w in run[j].workers
  {
    && k < j && SetsState(run, log, k, w, v) && Unset(run, log, k + 1, j, w)
    && run[j].workers[w].state == if (v == Joining || v == Unknown) && HeartbeatIn(log, k + 1, j, w) then Ready else v
  }

  lemma SinceNow(run: seq<State>, log: seq<Entry>, k: nat, w: Id, v: WorkerState)
    requires SetsState(run, log, k, w, v) && run[k + 1].workers[w].state == v
    ensures StateSince(run, log, k + 1, w, k, v)
  {
    assert !HeartbeatIn(log, k + 1, k + 1, w);
  }

  lemma SinceNext(rf: RepFactor, run: seq<State>, log: seq<Entry>, j: nat, w: Id, k: nat, v: WorkerState)
    requires Scripted(rf, run, log) && j + 1 < |run| && w in run[j].workers && w in run[j + 1].workers
    requires !(log[j].cmd.UpdateWorkerState? && log[j].cmd.worker == w) && StateSince(run, log, j, w, k, v)
    ensures StateSince(run, log, j + 1, w, k, v)
  {
    EntryApplies(rf, run, log, j);
    StateAcross(rf, run[j], log[j].cmd, log[j].env, run[j + 1], ReplyAt(rf, run, log, j), w);
    HeartbeatInNext(log, k + 1, j, w);
    UnsetNext(run, log, k + 1, j, w);
  }

  /** A worker's state is the one last set, joining to begin with, and ready instead once a heartbeat has come to a
      worker that was joining or unknown. */
  lemma {:induction false} StateIsLastSet(rf: RepFactor, run: seq<State>, log: seq<Entry>, j: nat, w: Id) returns (k: nat, v: WorkerState)
    requires Scripted(rf, run, log) && j < |run| && w in run[j].workers
    ensures StateSince(run, log, j, w, k, v)
  {
    k := j - 1;
    var cmd := log[k].cmd;
    EntryApplies(rf, run, log, k);
    if w !in run[k].workers {
      v := Joining;
      NewIsJoining(rf, run[k], cmd, log[k].env, run[j], ReplyAt(rf, run, log, k), w);
      SinceNow(run, log, k, w, v);
    } else if cmd.UpdateWorkerState? && cmd.worker == w {
      v := cmd.workerState;
      WorkerStateEffect(rf, run[k], w, v, log[k].env, run[j], ReplyAt(rf, run, log, k));
      SinceNow(run, log, k, w, v);
    } else {
      k, v := StateIsLastSet(rf, run, log, j - 1, w);
      SinceNext(rf, run, log, j - 1, w, k, v);
    }
  }

  lemma HeartbeatInNext(log: seq<Entry>, from: nat, to: nat, w: Id)
    requires from <= to
    ensures HeartbeatIn(log, from, to + 1, w) <==> HeartbeatIn(log, from, to, w) || HeartbeatAt(log, to, w)
  {
    if HeartbeatIn(log, from, to, w) {
      var k: nat :| from <= k < to && HeartbeatAt(log, k, w);
      assert from <= k < to + 1;
    }
  }

  lemma UnsetNext(run: seq<State>, log: seq<Entry>, from: nat, to: nat, w: Id)
    requires Unset(run, log, from, to, w) && forall v :: !SetsState(run, log, to, w, v)
    ensures Unset(run, log, from, to + 1, w)
  {
  }

  lemma NewIsJoining(rf: RepFactor, s: State, cmd: Command, env: Env, t: State, reply: Reply, w: Id)
    requires Applies(rf, s, cmd, env, t, reply) && w in t.workers && w !in s.workers
    ensures cmd.RegisterWorker? && reply == Accepted(w) && t.workers[w].state == Joining
  {
    if !OnWorkers(cmd) { WorkersAlone(rf, s, cmd, env); }
  }

  lemma StateAcross(rf: RepFactor, s: State, cmd: Command, env: Env, t: State, reply: Reply, w: Id)
    requires Applies(rf, s, cmd, env, t, reply) && w in t.workers && w in s.workers && !(cmd.UpdateWorkerState? && cmd.worker == w)
    ensures var a, b := s.workers[w].state, t.workers[w].state;
      b == if (a == Joining || a == Unknown) && cmd.UpdateWorkerHeartbeat? && cmd.worker == w then Ready else a
  {
    if !OnWorkers(cmd) { WorkersAlone(rf, s, cmd, env); }
  }

  // ---------------------------------------------------------------- staying healthy

  /** The clock does not go back between two entries of the log. */
  ghost predicate ClockRuns(log: seq<Entry>, from: nat, to: nat)
  {
    forall a: nat, b: nat :: from <= a <= b < to && b < |log| ==> log[a].env.now <= log[b].env.now
  }

  /** At entry `k` the worker's latest heartbeat is less than thirty seconds old. */
  ghost predicate RecentBeat(log: seq<Entry>, i: nat, k: nat, w: Id)
  {
    k < |log| && exists b: nat :: i <= b < k && HeartbeatAt(log, b, w) && log[k].env.now - log[b].env.now < 30_000_000_000
  }

  /** The worker is still registered after the entry, which did not set its state. */
  ghost predicate Undisturbed(run: seq<State>, log: seq<Entry>, k: nat, w: Id)
  {
    k < |log| && |run| == |log| + 1 && w in run[k + 1].workers && !(log[k].cmd.UpdateWorkerState? && log[k].cmd.worker == w)
  }

  ghost predicate UndisturbedIn(run: seq<State>, log: seq<Entry>, from: nat, to: nat, w: Id)
  {
    forall k: nat :: from <= k < to ==> Undisturbed(run, log, k, w)
  }

  lemma {:induction false} StateStays(rf: RepFactor, run: seq<State>, log: seq<Entry>, i: nat, j: nat, w: Id)
    requires Scripted(rf, run, log) && i <= j < |run| && w in run[i].workers && UndisturbedIn(run, log, i, j, w)
    ensures w in run[j].workers
    ensures run[i].workers[w].state != Draining ==> run[j].workers[w].state != Draining
    ensures run[i].workers[w].state == Ready ==> run[j].workers[w].state == Ready
  {
    if i < j {
      StateStays(rf, run, log, i, j - 1, w);
      assert Undisturbed(run, log, j - 1, w);
      EntryApplies(rf, run, log, j - 1);
      StateAcross(rf, run[j - 1], log[j - 1].cmd, log[j - 1].env, run[j], ReplyAt(rf, run, log, j - 1), w);
    }
  }

  /** While a worker stays registered and nobody sets its state, if it was not draining and its heartbeats come less than
      thirty seconds apart, it is healthy at every entry. */
  lemma BeatingWorkersAreHealthy(rf: RepFactor, run: seq<State>, log: seq<Entry>, i: nat, j: nat, w: Id)
    requires Scripted(rf, run, log) && i < j < |log| && w in run[i].workers && run[i].workers[w].state != Draining
    requires ClockRuns(log, i, |log|) && RecentBeat(log, i, j, w) && UndisturbedIn(run, log, i, j, w)
    ensures IsHealthy(run[j].workers, w, log[j].env.now)
  {
    var b: nat :| i <= b < j && HeartbeatAt(log, b, w) && log[j].env.now - log[b].env.now < 30_000_000_000;
    StateStays(rf, run, log, i, b, w);
    assert Undisturbed(run, log, b, w);
    EntryApplies(rf, run, log, b);
    StateAcross(rf, run[b], log[b].cmd, log[b].env, run[b + 1], ReplyAt(rf, run, log, b), w);
    StateStays(rf, run, log, b + 1, j, w);
    var last := LastBeat(rf, run, log, j, w);
    assert Beats(rf, run, log, b, w);
  }

  // ---------------------------------------------------------------- registrations

  ghost predicate SamePair(a: Command, b: Command)
  {
    a.RegisterWorker? && b.RegisterWorker? && a.grpcAddr == b.grpcAddr && a.raftAddr == b.raftAddr
  }

  /** The id answered is the next one, or that of a worker with these addresses. */
  lemma IdIsOwn(rf: RepFactor, s: State, cmd: Command, env: Env, t: State, reply: Reply)
    requires cmd.RegisterWorker? && Applies(rf, s, cmd, env, t, reply)
    ensures reply.Accepted? && (reply.value in s.workers || reply.value == s.nextWorker)
    ensures reply.value in s.workers ==>
      s.workers[reply.value].grpcAddr == cmd.grpcAddr && s.workers[reply.value].raftAddr == cmd.raftAddr
  {
  }

  lemma RegisteredAt(rf: RepFactor, s: State, cmd: Command, env: Env, t: State, reply: Reply)
    requires cmd.RegisterWorker? && Applies(rf, s, cmd, env, t, reply)
    ensures reply.Accepted? && reply.value in t.workers
    ensures t.workers[reply.value].grpcAddr == cmd.grpcAddr && t.workers[reply.value].raftAddr == cmd.raftAddr
    ensures reply.value in s.workers || reply.value == s.nextWorker
  {
  }

  /** The first registration's worker keeps its id and addresses for as long as it stays, and nobody else gets the id. */
  lemma IdKept(rf: RepFactor, run: seq<State>, log: seq<Entry>, a: nat, b: nat)
    requires Scripted(rf, run, log) && a < b < |log| && log[a].cmd.RegisterWorker?
    ensures ReplyAt(rf, run, log, a).Accepted?
    ensures var x := ReplyAt(rf, run, log, a).value;
      && x < run[b].nextWorker
      && (x in run[b].workers ==> run[b].workers[x].grpcAddr == log[a].cmd.grpcAddr && run[b].workers[x].raftAddr == log[a].cmd.raftAddr)
  {
    EntryApplies(rf, run, log, a);
    RegisteredAt(rf, run[a], log[a].cmd, log[a].env, run[a + 1], ReplyAt(rf, run, log, a));
    ScriptedIsRun(rf, run, log);
    RunInv(rf, run, a + 1);
    RunFollows(rf, run, a + 1, b);
  }

  /** Two registrations, however far apart, are answered with the same id if and only if they name the same two addresses
      and the worker of the first is still registered at the second. */
  lemma SameIdIff(rf: RepFactor, run: seq<State>, log: seq<Entry>, a: nat, b: nat)
    requires Scripted(rf, run, log) && a < b < |log| && log[a].cmd.RegisterWorker? && log[b].cmd.RegisterWorker?
    ensures ReplyAt(rf, run, log, a).Accepted? && ReplyAt(rf, run, log, b).Accepted?
    ensures ReplyAt(rf, run, log, a) == ReplyAt(rf, run, log, b) <==>
      SamePair(log[a].cmd, log[b].cmd) && ReplyAt(rf, run, log, a).value in run[b].workers
  {
    IdKept(rf, run, log, a, b);
    EntryApplies(rf, run, log, b);
    var x := ReplyAt(rf, run, log, a).value;
    if x in run[b].workers && SamePair(log[a].cmd, log[b].cmd) {
      KnownWorkerEffect(rf, run[b], x, log[b].cmd, log[b].env, run[b + 1], ReplyAt(rf, run, log, b));
    } else {
      IdIsOwn(rf, run[b], log[b].cmd, log[b].env, run[b + 1], ReplyAt(rf, run, log, b));
    }
  }

  // ---------------------------------------------------------------- leaders

  /** The entry reports a leader of a shard that exists. */
  ghost predicate LeaderReport(run: seq<State>, log: seq<Entry>, k: nat, sid: Id, leader: Id)
  {
    k < |log| && |run| == |log| + 1 && log[k].cmd == UpdateShardLeader(sid, leader) && Exists(run[k], sid)
  }

  ghost predicate NoLeaderReport(run: seq<State>, log: seq<Entry>, from: nat, to: nat, sid: Id)
  {
    forall k: nat, leader: Id :: from <= k < to ==> !LeaderReport(run, log, k, sid, leader)
  }

  lemma EntryAcross(rf: RepFactor, run: seq<State>, log: seq<Entry>, k: nat, sid: Id)
    requires Scripted(rf, run, log) && k < |log| && Exists(run[k], sid) && Exists(run[k + 1], sid)
    ensures Across(ShardOf(run[k], sid), ShardOf(run[k + 1], sid), log[k].cmd, sid)
  {
    EntryApplies(rf, run, log, k);
    assert EntryAt(rf, run, log, k);
    StepAcross(rf, run[k], log[k].cmd, log[k].env, run[k + 1], sid);
  }

  /** A shard's leader is the one last reported since it was created, and none to begin with. */
  lemma {:induction false} LeaderIsLastReported(rf: RepFactor, run: seq<State>, log: seq<Entry>, j: nat, sid: Id) returns (k: nat)
    requires Scripted(rf, run, log) && j < |run| && Exists(run[j], sid)
    ensures var leader := ShardOf(run[j], sid).leader;
      if NoLeaderReport(run, log, 0, j, sid) then leader == 0
      else k < j && LeaderReport(run, log, k, sid, leader) && NoLeaderReport(run, log, k + 1, j, sid)
  {
    ScriptedIsRun(rf, run, log);
    k := j - 1;
    if !Exists(run[k], sid) {
      RunBirth(rf, run, j, sid);
      forall i: nat, leader: Id | i < j
        ensures !LeaderReport(run, log, i, sid, leader)
      {
        NeverBefore(rf, run, j, i, sid);
      }
    } else {
      EntryAcross(rf, run, log, k, sid);
      if log[k].cmd.UpdateShardLeader? && log[k].cmd.shard == sid {
        assert LeaderReport(run, log, k, sid, log[k].cmd.leader);
      } else {
        k := LeaderIsLastReported(rf, run, log, j - 1, sid);
        assert NoLeaderReport(run, log, 0, j, sid) <==> NoLeaderReport(run, log, 0, j - 1, sid);
      }
    }
  }

  // ---------------------------------------------------------------- metrics

  /** Every rate and latency reported for the shard is between zero and these. */
  ghost predicate ReportedWithin(log: seq<Entry>, sid: Id, qps: real, latency: real)
  {
    forall k :: 0 <= k < |log| && log[k].cmd.UpdateShardMetrics? && log[k].cmd.shard == sid ==>
      0.0 <= log[k].cmd.qps <= qps && 0.0 <= log[k].cmd.latency <= latency
  }

  /** Smoothing never takes a shard's metrics beyond what was reported for it. */
  lemma {:induction false} MetricsWithinReports(rf: RepFactor, run: seq<State>, log: seq<Entry>, j: nat, sid: Id, qps: real, latency: real)
    requires Scripted(rf, run, log) && j < |run| && Exists(run[j], sid)
    requires 0.0 <= qps && 0.0 <= latency && ReportedWithin(log, sid, qps, latency)
    ensures 0.0 <= ShardOf(run[j], sid).qps <= qps && 0.0 <= ShardOf(run[j], sid).latency <= latency
  {
    ScriptedIsRun(rf, run, log);
    if !Exists(run[j - 1], sid) {
      RunBirth(rf, run, j, sid);
    } else {
      EntryAcross(rf, run, log, j - 1, sid);
      MetricsWithinReports(rf, run, log, j - 1, sid, qps, latency);
    }
  }
}
