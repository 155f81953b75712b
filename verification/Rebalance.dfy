/** The rebalancing protocol over every interleaving of log commands, heartbeat reports, clock ticks and cycles. */
module Rebalance {
  import opened Prelude
  import opened FsmTypes
  import opened FsmModel
  import opened FsmInvariant
  import opened History
  import opened MovePlan
  import KeySpace

  /** A progress report that was accepted. */
  datatype Report = Report(worker: Id, shard: Id, applied: nat, epoch: nat)

  /** One driver node: its log so far, its clock, the latest reports by (shard, worker), and its moves. */
  datatype World = World(
    run: seq<State>, now: int, membership: map<Id, Membership>, progress: map<(Id, Id), Progress>,
    acks: map<(Id, Id), Ack>, reports: seq<Report>, moves: map<Id, Inflight>)

  datatype Action =
    | Log(cmd: Command, env: Env)
    | Tick(now: int)
    | ReportProgress(worker: Id, shard: Id, applied: nat, epoch: nat)
    | ReportMembership(worker: Id, shard: Id, claimedLeader: Id, nodes: set<Id>, configChange: nat)
    | ReportAck(worker: Id, shard: Id, source: Id, target: Id, epoch: nat)
    | Start(move: Move, ok: bool)
    | Advance(shard: Id, ok: bool)

  ghost function Current(w: World): State
    requires |w.run| > 0
  {
    w.run[|w.run| - 1]
  }

  ghost predicate HasReplica(s: State, sid: Id, x: Id)
  {
    Exists(s, sid) && x in ShardOf(s, sid).replicas
  }

  function FreshProgress(w: World, sid: Id, node: Id): Option<Progress>
  {
    if (sid, node) in w.progress && w.now - w.progress[(sid, node)].at <= REPORT_STALE_AFTER
    then Some(w.progress[(sid, node)]) else None
  }

  ghost function ViewOf(w: World, m: Inflight, sh: Shard): View
    requires |w.run| > 0
  {
    var ws, sid := Current(w).workers, m.move.shard;
    View(IsHealthy(ws, m.move.target, w.now), m.move.target in ws && sid in ws[m.move.target].running,
         if sid in w.membership && w.now - w.membership[sid].at <= REPORT_STALE_AFTER then Some(w.membership[sid]) else None,
         FreshProgress(w, sid, sh.leader), FreshProgress(w, sid, m.move.target),
         if (sid, m.move.source) in w.acks && w.now - w.acks[(sid, m.move.source)].at <= ACK_STALE_AFTER
         then Some(w.acks[(sid, m.move.source)]) else None)
  }

  ghost function CommandOf(sid: Id, p: Proposal): Command
  {
    match p
    case AddReplica(x) => AddShardReplica(sid, x)
    case RemoveReplica(x) => RemoveShardReplica(sid, x)
  }

  ghost function EnvAt(now: int): Env
  {
    Env(now, now, [], KeySpace.Float(0, 1), 0)
  }

  /** A proposal raft takes is applied, or silently refused by the state machine; the proposer cannot tell. */
  ghost function Logged(rf: RepFactor, w: World, cmd: Command, env: Env): World
    requires |w.run| > 0
  {
    w.(run := w.run + [Apply(rf, Current(w), cmd, env).state])
  }

  ghost function NewMove(w: World, move: Move, added: bool, epoch: nat): Inflight
  {
    var fresh' := move.shard in w.membership && w.now - w.membership[move.shard].at <= REPORT_STALE_AFTER;
    Inflight(move, w.now, w.now, w.now, 0, added, WaitTarget,
             if fresh' then w.membership[move.shard].configChange else 0, 0, 0, epoch, false, 0)
  }

  ghost predicate MayStart(cap: int, w: World, move: Move)
  {
    && |w.run| > 0 && |w.moves| < cap && move.shard !in w.moves && move.source != move.target
    && Exists(Current(w), move.shard) && IsHealthy(Current(w).workers, move.target, w.now)
  }

  /** What can happen in a world: any command at any time, while moves start only under the cap, one for each shard, onto
      a healthy worker other than the source. */
  ghost predicate Permitted(cap: int, w: World, a: Action)
  {
    && |w.run| > 0
    && match a
       case Log(cmd, env) => ValidEnv(Current(w), cmd, env)
       case Tick(now) => now >= w.now
       case Start(move, _) => MayStart(cap, w, move)
       case Advance(sid, _) => sid in w.moves
       case _ => true
  }

  /** The log's counters have room for the command an action may propose. */
  ghost predicate Roomy(w: World, a: Action)
  {
    |w.run| > 0 ==>
      match a
      case Log(cmd, env) => Headroom(Current(w), cmd)
      case Start(move, _) => Headroom(Current(w), AddShardReplica(move.shard, move.target))
      case Advance(sid, _) => Headroom(Current(w), AddShardReplica(sid, 0))
      case _ => true
  }

  ghost predicate Enabled(cap: int, w: World, a: Action)
  {
    Permitted(cap, w, a) && Roomy(w, a)
  }

  ghost function StartMove(rf: RepFactor, w: World, move: Move, ok: bool): World
    requires |w.run| > 0 && Exists(Current(w), move.shard)
  {
    if HasReplica(Current(w), move.shard, move.target) then
      w.(moves := w.moves[move.shard := NewMove(w, move, false, ShardOf(Current(w), move.shard).epoch)])
    else if !ok then w
    else
      var w1 := Logged(rf, w, AddShardReplica(move.shard, move.target), EnvAt(w.now));
      var e := if Exists(Current(w1), move.shard) then ShardOf(Current(w1), move.shard).epoch else 0;
      w1.(moves := w1.moves[move.shard := NewMove(w, move, true, e)])
  }

  ghost function Settle(moves: map<Id, Inflight>, sid: Id, s: Option<Inflight>): map<Id, Inflight>
  {
    if s.Some? then moves[sid := s.value] else moves - {sid}
  }

  ghost function AdvanceMove(rf: RepFactor, w: World, sid: Id, ok: bool): World
    requires |w.run| > 0 && sid in w.moves
  {
    if !Exists(Current(w), sid) then w.(moves := w.moves - {sid})
    else
      var sh := ShardOf(Current(w), sid);
      var d := Decide(rf, w.moves[sid], sh, ViewOf(w, w.moves[sid], sh), w.now);
      var w1 := if d.Propose? && ok then Logged(rf, w, CommandOf(sid, d.proposal), EnvAt(w.now)) else w;
      w1.(moves := Settle(w.moves, sid, Settled(d, ok)))
  }

  ghost function After(rf: RepFactor, w: World, a: Action): World
    requires |w.run| > 0 && (a.Start? ==> Exists(Current(w), a.move.shard)) && (a.Advance? ==> a.shard in w.moves)
  {
    match a
    case Log(cmd, env) => Logged(rf, w, cmd, env)
    case Tick(now) => w.(now := now)
    case ReportProgress(x, sid, applied, epoch) =>
      if !HasReplica(Current(w), sid, x) then w
      else w.(progress := w.progress[(sid, x) := Progress(applied, epoch, w.now)], reports := w.reports + [Report(x, sid, applied, epoch)])
    case ReportMembership(x, sid, claimedLeader, nodes, configChange) =>
      if claimedLeader != x || !HasReplica(Current(w), sid, x) then w
      else w.(membership := w.membership[sid := Membership(nodes, configChange, w.now)])
    case ReportAck(x, sid, source, target, epoch) =>
      if source != x then w else w.(acks := w.acks[(sid, x) := Ack(target, epoch, w.now)])
    case Start(move, ok) => StartMove(rf, w, move, ok)
    case Advance(sid, ok) => AdvanceMove(rf, w, sid, ok)
  }

  /** A worker never reports an epoch the driver has not reached: it learned the epoch from the driver. */
  ghost predicate Honest(w: World, a: Action)
  {
    a.ReportProgress? && |w.run| > 0 && Exists(Current(w), a.shard) ==> a.epoch <= ShardOf(Current(w), a.shard).epoch
  }

  // ---------------------------------------------------------------- the protocol invariant

  ghost predicate TakenAt(run: seq<State>, r: Report, i: nat)
  {
    i < |run| && HasReplica(run[i], r.shard, r.worker) && r.epoch <= ShardOf(run[i], r.shard).epoch
  }

  ghost predicate ReportOk(run: seq<State>, r: Report)
  {
    exists i: nat :: TakenAt(run, r, i)
  }

  /** `index` was reported, at epoch `e`, by the worker then recorded as leader, a replica at that epoch. */
  ghost predicate LeaderReportedAt(run: seq<State>, sid: Id, e: nat, index: nat, r: Report, i: nat)
  {
    && i < |run| && HasReplica(run[i], sid, r.worker) && ShardOf(run[i], sid).leader == r.worker
    && ShardOf(run[i], sid).epoch == e && r == Report(r.worker, sid, index, e)
  }

  ghost predicate LeaderReported(run: seq<State>, reports: seq<Report>, sid: Id, e: nat, index: nat)
  {
    exists r: Report, i: nat :: r in reports && LeaderReportedAt(run, sid, e, index, r, i)
  }

  /** `x` has reported, at epoch `e`, an applied index no lower than one the leader had reported at that epoch. */
  ghost predicate CaughtUp(run: seq<State>, reports: seq<Report>, sid: Id, x: Id, e: nat, index: nat, applied: nat)
  {
    && LeaderReported(run, reports, sid, e, index)
    && Report(x, sid, applied, e) in reports && applied >= index
  }

  /** At some state of the run the target was a replica, at the epoch the move waited for, and it has reached the index. */
  ghost predicate CaughtUpAt(run: seq<State>, reports: seq<Report>, sid: Id, m: Inflight, i: nat, applied: nat)
  {
    && i < |run| && HasReplica(run[i], sid, m.move.target) && ShardOf(run[i], sid).epoch == m.requiredEpoch
    && CaughtUp(run, reports, sid, m.move.target, m.requiredEpoch, m.requiredIndex, applied)
  }

  ghost predicate TargetCaughtUp(run: seq<State>, reports: seq<Report>, sid: Id, m: Inflight)
  {
    exists i: nat, applied: nat :: CaughtUpAt(run, reports, sid, m, i, applied)
  }

  ghost predicate MoveOk(run: seq<State>, reports: seq<Report>, sid: Id, m: Inflight)
  {
    && m.move.shard == sid && m.move.source != m.move.target && m.phase != AddTarget
    && (Late(m) ==> TargetCaughtUp(run, reports, sid, m))
    && (m.requiredIndex > 0 ==> LeaderReported(run, reports, sid, m.requiredEpoch, m.requiredIndex))
  }

  ghost predicate MovesOk(run: seq<State>, reports: seq<Report>, moves: map<Id, Inflight>)
  {
    forall sid :: sid in moves ==> MoveOk(run, reports, sid, moves[sid])
  }

  ghost predicate Good(rf: RepFactor, cap: int, w: World)
  {
    && Run(rf, w.run)
    && (forall k :: k in w.progress ==> Report(k.1, k.0, w.progress[k].applied, w.progress[k].epoch) in w.reports)
    && (forall r :: r in w.reports ==> ReportOk(w.run, r))
    && MovesOk(w.run, w.reports, w.moves)
    && |w.moves| <= Max(cap, 0)
  }

  // ---------------------------------------------------------------- growth of the log

  ghost predicate Grown(rf: RepFactor, run: seq<State>, run': seq<State>)
  {
    Run(rf, run') && run <= run'
  }

  lemma LoggedGrows(rf: RepFactor, w: World, cmd: Command, env: Env)
    requires Run(rf, w.run) && ValidEnv(Current(w), cmd, env) && Headroom(Current(w), cmd)
    ensures Grown(rf, w.run, Logged(rf, w, cmd, env).run)
  {
    assert Step(rf, Current(w), cmd, env, Apply(rf, Current(w), cmd, env).state);
    RunExtends(rf, w.run, Apply(rf, Current(w), cmd, env).state);
  }

  lemma ReportOkGrows(rf: RepFactor, run: seq<State>, run': seq<State>, r: Report)
    requires Grown(rf, run, run') && ReportOk(run, r)
    ensures ReportOk(run', r)
  {
    var i: nat :| TakenAt(run, r, i);
    assert run'[i] == run[i];
    assert TakenAt(run', r, i);
  }

  lemma LeaderReportedGrows(rf: RepFactor, run: seq<State>, run': seq<State>, reports: seq<Report>, reports': seq<Report>, sid: Id, e: nat, index: nat)
    requires Grown(rf, run, run') && reports <= reports' && LeaderReported(run, reports, sid, e, index)
    ensures LeaderReported(run', reports', sid, e, index)
  {
    var r: Report, i: nat :| r in reports && LeaderReportedAt(run, sid, e, index, r, i);
    assert run'[i] == run[i] && r in reports';
    assert LeaderReportedAt(run', sid, e, index, r, i);
  }

  lemma CaughtUpGrows(rf: RepFactor, run: seq<State>, run': seq<State>, reports: seq<Report>, reports': seq<Report>, sid: Id, m: Inflight)
    requires Grown(rf, run, run') && reports <= reports' && TargetCaughtUp(run, reports, sid, m)
    ensures TargetCaughtUp(run', reports', sid, m)
  {
    var i: nat, applied: nat :| CaughtUpAt(run, reports, sid, m, i, applied);
    LeaderReportedGrows(rf, run, run', reports, reports', sid, m.requiredEpoch, m.requiredIndex);
    assert run'[i] == run[i];
    assert CaughtUpAt(run', reports', sid, m, i, applied);
  }

  lemma MoveOkGrows(rf: RepFactor, run: seq<State>, run': seq<State>, reports: seq<Report>, reports': seq<Report>, sid: Id, m: Inflight)
    requires Grown(rf, run, run') && reports <= reports' && MoveOk(run, reports, sid, m)
    ensures MoveOk(run', reports', sid, m)
  {
    if m.requiredIndex > 0 { LeaderReportedGrows(rf, run, run', reports, reports', sid, m.requiredEpoch, m.requiredIndex); }
    if Late(m) { CaughtUpGrows(rf, run, run', reports, reports', sid, m); }
  }

  lemma GoodGrows(rf: RepFactor, cap: int, w: World, run': seq<State>)
    requires Good(rf, cap, w) && Grown(rf, w.run, run')
    ensures Good(rf, cap, w.(run := run'))
  {
    forall r | r in w.reports
      ensures ReportOk(run', r)
    {
      ReportOkGrows(rf, w.run, run', r);
    }
    forall sid | sid in w.moves
      ensures MoveOk(run', w.reports, sid, w.moves[sid])
    {
      MoveOkGrows(rf, w.run, run', w.reports, w.reports, sid, w.moves[sid]);
    }
  }

  // ---------------------------------------------------------------- reports at the current epoch

  /** A report at an epoch no older than the shard's is at the shard's very epoch, from one of its current replicas. */
  lemma ReportIsCurrent(rf: RepFactor, run: seq<State>, r: Report)
    requires Run(rf, run) && ReportOk(run, r) && Exists(run[|run| - 1], r.shard)
    requires r.epoch >= ShardOf(run[|run| - 1], r.shard).epoch
    ensures r.epoch == ShardOf(run[|run| - 1], r.shard).epoch && HasReplica(run[|run| - 1], r.shard, r.worker)
  {
    var i: nat :| TakenAt(run, r, i);
    RunFollows(rf, run, i, |run| - 1);
    assert ShardFollows(rf, ShardOf(run[i], r.shard), ShardOf(run[|run| - 1], r.shard));
  }

  /** A fresh report at an epoch no older than the shard's comes from one of its replicas, at that very epoch. */
  lemma FreshIsCurrent(rf: RepFactor, cap: int, w: World, sid: Id, node: Id)
    requires Good(rf, cap, w) && Exists(Current(w), sid)
    requires FreshProgress(w, sid, node).Some? && FreshProgress(w, sid, node).value.epoch >= ShardOf(Current(w), sid).epoch
    ensures HasReplica(Current(w), sid, node)
    ensures Report(node, sid, FreshProgress(w, sid, node).value.applied, ShardOf(Current(w), sid).epoch) in w.reports
  {
    var p := FreshProgress(w, sid, node).value;
    ReportIsCurrent(rf, w.run, Report(node, sid, p.applied, p.epoch));
  }

  // ---------------------------------------------------------------- steps keep the invariant

  lemma IndexStaysReported(rf: RepFactor, cap: int, w: World, sid: Id, n: Inflight)
    requires Good(rf, cap, w) && sid in w.moves && Exists(Current(w), sid) && n.requiredIndex > 0
    requires var sh := ShardOf(Current(w), sid); Provenance(w.moves[sid], n, sh, ViewOf(w, w.moves[sid], sh))
    ensures LeaderReported(w.run, w.reports, sid, n.requiredEpoch, n.requiredIndex)
  {
    var m, sh := w.moves[sid], ShardOf(Current(w), sid);
    assert MoveOk(w.run, w.reports, sid, m);
    if !(n.requiredEpoch == m.requiredEpoch && n.requiredIndex == m.requiredIndex) {
      LeaderIndexIsReported(rf, cap, w, sid, n.requiredEpoch);
    }
  }

  /** A leader report good enough to be recorded was made at the shard's present epoch by its present leader. */
  lemma LeaderIndexIsReported(rf: RepFactor, cap: int, w: World, sid: Id, e: nat)
    requires Good(rf, cap, w) && Exists(Current(w), sid) && e >= ShardOf(Current(w), sid).epoch
    requires var p := FreshProgress(w, sid, ShardOf(Current(w), sid).leader); p.Some? && p.value.epoch >= e
    ensures var p := FreshProgress(w, sid, ShardOf(Current(w), sid).leader).value;
      e == ShardOf(Current(w), sid).epoch && LeaderReported(w.run, w.reports, sid, e, p.applied)
  {
    var sh := ShardOf(Current(w), sid);
    var p := FreshProgress(w, sid, sh.leader).value;
    var r := Report(sh.leader, sid, p.applied, p.epoch);
    ReportIsCurrent(rf, w.run, r);
    assert LeaderReportedAt(w.run, sid, sh.epoch, p.applied, r, |w.run| - 1);
  }

  ghost predicate Passes(rf: RepFactor, w: World, sid: Id, m': Inflight)
  {
    && |w.run| > 0 && sid in w.moves && Exists(Current(w), sid) && w.moves[sid].phase == WaitTarget && m'.phase == RemoveSource
    && var sh := ShardOf(Current(w), sid); Decide(rf, w.moves[sid], sh, ViewOf(w, w.moves[sid], sh), w.now) == Keep(m')
  }

  ghost predicate GoodPass(rf: RepFactor, cap: int, w: World, sid: Id, m': Inflight)
  {
    Passes(rf, w, sid, m') && Good(rf, cap, w)
  }

  lemma RequiredIndexReported(rf: RepFactor, cap: int, w: World, sid: Id, m': Inflight)
    requires GoodPass(rf, cap, w, sid, m')
    ensures m'.requiredEpoch == ShardOf(Current(w), sid).epoch
    ensures LeaderReported(w.run, w.reports, sid, m'.requiredEpoch, m'.requiredIndex)
  {
    var m, sh := w.moves[sid], ShardOf(Current(w), sid);
    RemovalNeedsCaughtUpTarget(rf, m, sh, ViewOf(w, m, sh), w.now, m');
    assert MoveOk(w.run, w.reports, sid, m);
    LeaderIndexIsReported(rf, cap, w, sid, m'.requiredEpoch);
  }

  lemma PassesOnlyCaughtUp(rf: RepFactor, cap: int, w: World, sid: Id, m': Inflight) returns (applied: nat)
    requires GoodPass(rf, cap, w, sid, m')
    ensures HasReplica(Current(w), sid, w.moves[sid].move.target)
    ensures CaughtUp(w.run, w.reports, sid, w.moves[sid].move.target, ShardOf(Current(w), sid).epoch, m'.requiredIndex, applied)
    ensures m'.requiredEpoch == ShardOf(Current(w), sid).epoch
  {
    var m, sh := w.moves[sid], ShardOf(Current(w), sid);
    var v := ViewOf(w, m, sh);
    RemovalNeedsCaughtUpTarget(rf, m, sh, v, w.now, m');
    RequiredIndexReported(rf, cap, w, sid, m');
    applied := v.targetProgress.value.applied;
    FreshIsCurrent(rf, cap, w, sid, m.move.target);
  }

  lemma NowCaughtUp(rf: RepFactor, cap: int, w: World, sid: Id, n: Inflight)
    requires GoodPass(rf, cap, w, sid, n) && n.move == w.moves[sid].move
    ensures TargetCaughtUp(w.run, w.reports, sid, n)
  {
    var applied := PassesOnlyCaughtUp(rf, cap, w, sid, n);
    assert CaughtUpAt(w.run, w.reports, sid, n, |w.run| - 1, applied);
  }

  lemma StillCaughtUp(run: seq<State>, reports: seq<Report>, sid: Id, m: Inflight, n: Inflight)
    requires TargetCaughtUp(run, reports, sid, m)
    requires n.move == m.move && n.requiredEpoch == m.requiredEpoch && n.requiredIndex == m.requiredIndex
    ensures TargetCaughtUp(run, reports, sid, n)
  {
    var i: nat, applied: nat :| CaughtUpAt(run, reports, sid, m, i, applied);
    assert CaughtUpAt(run, reports, sid, n, i, applied);
  }

  /** Where a late move comes from: a late one that waited for the same, or one that passes now. */
  lemma LateOrigin(rf: RepFactor, w: World, sid: Id, ok: bool, n: Inflight)
    requires |w.run| > 0 && sid in w.moves && Exists(Current(w), sid) && Late(n) && w.moves[sid].phase != AddTarget
    requires var sh := ShardOf(Current(w), sid);
      Settled(Decide(rf, w.moves[sid], sh, ViewOf(w, w.moves[sid], sh), w.now), ok) == Some(n)
    ensures n.move == w.moves[sid].move
    ensures var m := w.moves[sid];
      (Late(m) && n.requiredEpoch == m.requiredEpoch && n.requiredIndex == m.requiredIndex) || Passes(rf, w, sid, n)
  {
    var m, sh := w.moves[sid], ShardOf(Current(w), sid);
    LateDecisions(rf, m, sh, ViewOf(w, m, sh), w.now, ok);
  }

  lemma LateKeeps(rf: RepFactor, cap: int, w: World, sid: Id, ok: bool, n: Inflight)
    requires Good(rf, cap, w) && sid in w.moves && Exists(Current(w), sid) && Late(n)
    requires var sh := ShardOf(Current(w), sid);
      Settled(Decide(rf, w.moves[sid], sh, ViewOf(w, w.moves[sid], sh), w.now), ok) == Some(n)
    ensures TargetCaughtUp(w.run, w.reports, sid, n)
  {
    assert MoveOk(w.run, w.reports, sid, w.moves[sid]);
    LateOrigin(rf, w, sid, ok, n);
    if Passes(rf, w, sid, n) { NowCaughtUp(rf, cap, w, sid, n); } else { StillCaughtUp(w.run, w.reports, sid, w.moves[sid], n); }
  }

  lemma DecisionKeepsMoveOk(rf: RepFactor, cap: int, w: World, sid: Id, ok: bool)
    requires Good(rf, cap, w) && sid in w.moves && Exists(Current(w), sid)
    ensures var sh := ShardOf(Current(w), sid);
      var s := Settled(Decide(rf, w.moves[sid], sh, ViewOf(w, w.moves[sid], sh), w.now), ok);
      s.Some? ==> MoveOk(w.run, w.reports, sid, s.value)
  {
    var sh := ShardOf(Current(w), sid);
    var v := ViewOf(w, w.moves[sid], sh);
    assert MoveOk(w.run, w.reports, sid, w.moves[sid]);
    DecisionProvenance(rf, w.moves[sid], sh, v, w.now, ok);
    LateDecisions(rf, w.moves[sid], sh, v, w.now, ok);
    var s := Settled(Decide(rf, w.moves[sid], sh, v, w.now), ok);
    if s.Some? {
      if s.value.requiredIndex > 0 { IndexStaysReported(rf, cap, w, sid, s.value); }
      if Late(s.value) { LateKeeps(rf, cap, w, sid, ok, s.value); }
    }
  }

  lemma AdvanceGood(rf: RepFactor, cap: int, w: World, sid: Id, ok: bool)
    requires Good(rf, cap, w) && sid in w.moves && Headroom(Current(w), AddShardReplica(sid, 0))
    ensures Good(rf, cap, AdvanceMove(rf, w, sid, ok))
  {
    if Exists(Current(w), sid) {
      var sh := ShardOf(Current(w), sid);
      var d := Decide(rf, w.moves[sid], sh, ViewOf(w, w.moves[sid], sh), w.now);
      DecisionKeepsMoveOk(rf, cap, w, sid, ok);
      SettleGood(rf, cap, w, sid, Settled(d, ok));
      if d.Propose? && ok {
        var cmd := CommandOf(sid, d.proposal);
        LoggedGrows(rf, w, cmd, EnvAt(w.now));
        GoodGrows(rf, cap, w.(moves := Settle(w.moves, sid, Settled(d, ok))), Logged(rf, w, cmd, EnvAt(w.now)).run);
      }
    } else {
      SettleGood(rf, cap, w, sid, None);
    }
  }

  lemma SettleGood(rf: RepFactor, cap: int, w: World, sid: Id, s: Option<Inflight>)
    requires Good(rf, cap, w) && sid in w.moves
    requires s.Some? ==> MoveOk(w.run, w.reports, sid, s.value)
    ensures Good(rf, cap, w.(moves := Settle(w.moves, sid, s)))
  {
  }

  lemma StartGood(rf: RepFactor, cap: int, w: World, move: Move, ok: bool)
    requires Good(rf, cap, w) && Enabled(cap, w, Start(move, ok))
    ensures Good(rf, cap, StartMove(rf, w, move, ok))
  {
    var sid := move.shard;
    if HasReplica(Current(w), sid, move.target) {
      PutMoveGood(rf, cap, w, sid, NewMove(w, move, false, ShardOf(Current(w), sid).epoch));
    } else if ok {
      var t := StartMove(rf, w, move, ok);
      var m := t.moves[sid];
      assert t.moves == w.moves[sid := m];
      PutMoveGood(rf, cap, w, sid, m);
      LoggedGrows(rf, w, AddShardReplica(sid, move.target), EnvAt(w.now));
      GoodGrows(rf, cap, w.(moves := t.moves), t.run);
    }
  }

  lemma PutMoveGood(rf: RepFactor, cap: int, w: World, sid: Id, m: Inflight)
    requires Good(rf, cap, w) && sid !in w.moves && |w.moves| < cap && MoveOk(w.run, w.reports, sid, m)
    ensures Good(rf, cap, w.(moves := w.moves[sid := m]))
  {
  }

  lemma MoreReportsOk(rf: RepFactor, cap: int, w: World, r: Report)
    requires Good(rf, cap, w) && TakenAt(w.run, r, |w.run| - 1)
    ensures MovesOk(w.run, w.reports + [r], w.moves) && forall x :: x in w.reports + [r] ==> ReportOk(w.run, x)
  {
    forall sid | sid in w.moves
      ensures MoveOk(w.run, w.reports + [r], sid, w.moves[sid])
    {
      MoveOkGrows(rf, w.run, w.run, w.reports, w.reports + [r], sid, w.moves[sid]);
    }
  }

  lemma ReportGood(rf: RepFactor, cap: int, w: World, r: Report, at: int)
    requires Good(rf, cap, w) && TakenAt(w.run, r, |w.run| - 1)
    ensures Good(rf, cap, w.(progress := w.progress[(r.shard, r.worker) := Progress(r.applied, r.epoch, at)], reports := w.reports + [r]))
  {
    MoreReportsOk(rf, cap, w, r);
    assert forall x :: x in w.reports + [r] <==> x in w.reports || x == r;
  }

  lemma ActionGood(rf: RepFactor, cap: int, w: World, a: Action)
    requires Good(rf, cap, w) && Enabled(cap, w, a) && Honest(w, a)
    ensures Good(rf, cap, After(rf, w, a))
  {
    match a
    case Log(cmd, env) =>
      LoggedGrows(rf, w, cmd, env);
      GoodGrows(rf, cap, w, Logged(rf, w, cmd, env).run);
    case ReportProgress(x, sid, applied, epoch) =>
      if HasReplica(Current(w), sid, x) {
        assert TakenAt(w.run, Report(x, sid, applied, epoch), |w.run| - 1);
        ReportGood(rf, cap, w, Report(x, sid, applied, epoch), w.now);
      }
    case Start(move, ok) => StartGood(rf, cap, w, move, ok);
    case Advance(sid, ok) => AdvanceGood(rf, cap, w, sid, ok);
    case _ =>
  }

  // ---------------------------------------------------------------- executions

  /** An interleaving of everything that can happen at one driver node. */
  datatype Execution = Execution(worlds: seq<World>, actions: seq<Action>)

  ghost predicate StepOk(rf: RepFactor, cap: int, ex: Execution, i: nat)
  {
    i < |ex.actions| && i + 1 < |ex.worlds| ==>
      && Enabled(cap, ex.worlds[i], ex.actions[i]) && Honest(ex.worlds[i], ex.actions[i])
      && ex.worlds[i + 1] == After(rf, ex.worlds[i], ex.actions[i])
  }

  ghost predicate Executes(rf: RepFactor, cap: int, ex: Execution)
  {
    && |ex.worlds| == |ex.actions| + 1
    && ex.worlds[0] == Beginning(ex.worlds[0].now)
    && AllStepsOk(rf, cap, ex)
  }

  ghost predicate AllStepsOk(rf: RepFactor, cap: int, ex: Execution)
  {
    forall i: nat :: StepOk(rf, cap, ex, i)
  }

  ghost function Beginning(now: int): World
  {
    World([Initial], now, map[], map[], map[], [], map[])
  }

  /** One step of an execution from a good world. */
  ghost predicate GoodStep(rf: RepFactor, cap: int, w: World, a: Action, w': World)
  {
    Enabled(cap, w, a) && w' == After(rf, w, a) && Honest(w, a) && Good(rf, cap, w)
  }

  lemma GoodStepGood(rf: RepFactor, cap: int, w: World, a: Action, w': World)
    requires GoodStep(rf, cap, w, a, w')
    ensures Good(rf, cap, w')
  {
    ActionGood(rf, cap, w, a);
  }

  ghost predicate GoodAt(rf: RepFactor, cap: int, ex: Execution, n: nat)
  {
    n < |ex.worlds| && Good(rf, cap, ex.worlds[n])
  }

  lemma GoodAtNext(rf: RepFactor, cap: int, ex: Execution, n: nat)
    requires Executes(rf, cap, ex) && n + 1 < |ex.worlds| && GoodAt(rf, cap, ex, n)
    ensures GoodAt(rf, cap, ex, n + 1)
  {
    assert StepOk(rf, cap, ex, n);
    GoodStepGood(rf, cap, ex.worlds[n], ex.actions[n], ex.worlds[n + 1]);
  }

  lemma {:induction false} ExecutionGood(rf: RepFactor, cap: int, ex: Execution, n: nat)
    requires Executes(rf, cap, ex) && n < |ex.worlds|
    ensures GoodAt(rf, cap, ex, n)
  {
    if n > 0 {
      ExecutionGood(rf, cap, ex, n - 1);
      GoodAtNext(rf, cap, ex, n - 1);
    }
  }

  lemma {:induction false} RunsExtend(rf: RepFactor, cap: int, ex: Execution, n: nat, k: nat)
    requires Executes(rf, cap, ex) && n <= k < |ex.worlds|
    ensures ex.worlds[n].run <= ex.worlds[k].run
  {
    if n < k {
      RunsExtend(rf, cap, ex, n, k - 1);
      assert StepOk(rf, cap, ex, k - 1);
    }
  }
}
