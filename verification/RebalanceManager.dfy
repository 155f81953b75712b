/** The rebalancing manager's cycle, updated in place, as a sequence of protocol actions. */
module RebalanceManager {
  import opened Prelude
  import opened FsmTypes
  import opened FsmModel
  import opened FsmInvariant
  import opened Fsm
  import opened MovePlan
  import opened Rebalance

  /** Performing actions one after the other, passing over those that are not permitted. */
  ghost function Perform(rf: RepFactor, cap: int, w: World, actions: seq<Action>): World
  {
    if actions == [] then w
    else
      var u, a := Perform(rf, cap, w, actions[..|actions| - 1]), actions[|actions| - 1];
      if Permitted(cap, u, a) then After(rf, u, a) else u
  }

  lemma PerformSnoc(rf: RepFactor, cap: int, w: World, actions: seq<Action>, a: Action)
    requires Permitted(cap, Perform(rf, cap, w, actions), a)
    ensures Perform(rf, cap, w, actions + [a]) == After(rf, Perform(rf, cap, w, actions), a)
  {
  }

  /** Up to `k` more starts and advances. */
  ghost predicate Continues(before: seq<Action>, actions: seq<Action>, k: nat)
  {
    OnlyMoves(actions) && before <= actions && |actions| <= |before| + k
  }

  /** Only starts and advances of moves. */
  ghost predicate OnlyMoves(actions: seq<Action>)
  {
    forall k :: 0 <= k < |actions| ==> actions[k].Start? || actions[k].Advance?
  }

  /** What a proposal does to the state once raft has taken it. */
  ghost function Proposed(rf: RepFactor, s: State, sid: Id, p: Proposal, now: int): State
  {
    match p
    case AddReplica(x) => ApplyAdd(s, sid, x, now).state
    case RemoveReplica(x) => ApplyRemove(rf, s, sid, x).state
  }

  lemma ProposedIsApplied(rf: RepFactor, s: State, sid: Id, p: Proposal, now: int)
    ensures Apply(rf, s, CommandOf(sid, p), EnvAt(now)).state == Proposed(rf, s, sid, p, now)
  {
  }

  lemma ProposalKeepsHomes(rf: RepFactor, s: State, sid: Id, p: Proposal, now: int)
    requires HomesUnique(s)
    ensures HomesUnique(Proposed(rf, s, sid, p, now))
  {
    if Exists(s, sid) {
      var replicas := ShardOf(s, sid).replicas;
      match p
      case AddReplica(x) => ReconfigureKeepsHomes(s, sid, replicas + [x]);
      case RemoveReplica(x) =>
        if x in replicas { ReconfigureKeepsHomes(s, sid, Without(replicas, IndexOf(replicas, x))); }
    }
  }

  lemma ProposalRoom(rf: RepFactor, s: State, sid: Id, p: Proposal, now: int, k: nat)
    requires HomesUnique(s) && RoomFor(s, k + 1)
    ensures RoomFor(Proposed(rf, s, sid, p, now), k)
  {
    if Exists(s, sid) {
      var replicas := ShardOf(s, sid).replicas;
      match p
      case AddReplica(x) => ReconfigureRoom(s, sid, replicas + [x], k);
      case RemoveReplica(x) =>
        if x in replicas { ReconfigureRoom(s, sid, Without(replicas, IndexOf(replicas, x)), k); }
    }
  }

  /** A world whose log has room for `k` more changes of configuration. */
  ghost predicate WithRoom(w: World, k: nat)
  {
    |w.run| > 0 && HomesUnique(Current(w)) && RoomFor(Current(w), k)
  }

  lemma LoggedRoom(rf: RepFactor, w: World, sid: Id, p: Proposal, now: int, k: nat)
    requires WithRoom(w, k + 1)
    ensures WithRoom(Logged(rf, w, CommandOf(sid, p), EnvAt(now)), k)
  {
    ProposedIsApplied(rf, Current(w), sid, p, now);
    ProposalKeepsHomes(rf, Current(w), sid, p, now);
    ProposalRoom(rf, Current(w), sid, p, now, k);
  }

  lemma StartRoom(rf: RepFactor, cap: int, w: World, move: Move, ok: bool, k: nat)
    requires MayStart(cap, w, move) && WithRoom(w, k + 1)
    ensures WithRoom(StartMove(rf, w, move, ok), k)
  {
    assert CommandOf(move.shard, AddReplica(move.target)) == AddShardReplica(move.shard, move.target);
    LoggedRoom(rf, w, move.shard, AddReplica(move.target), w.now, k);
  }

  lemma AdvanceRoom(rf: RepFactor, w: World, sid: Id, ok: bool, k: nat)
    requires sid in w.moves && WithRoom(w, k + 1)
    ensures WithRoom(AdvanceMove(rf, w, sid, ok), k)
  {
    if Exists(Current(w), sid) {
      var sh := ShardOf(Current(w), sid);
      var d := Decide(rf, w.moves[sid], sh, ViewOf(w, w.moves[sid], sh), w.now);
      if d.Propose? { LoggedRoom(rf, w, sid, d.proposal, w.now, k); }
    }
  }

  /** One start or advance in a good world with room leaves a good world, with room for one less. */
  lemma MoveActionGood(rf: RepFactor, cap: int, w: World, a: Action, k: nat)
    requires Good(rf, cap, w) && WithRoom(w, k + 1) && Permitted(cap, w, a) && (a.Start? || a.Advance?)
    ensures Good(rf, cap, After(rf, w, a)) && WithRoom(After(rf, w, a), k)
  {
    RoomIsHeadroom(Current(w), AddShardReplica(0, 0), k + 1);
    ActionGood(rf, cap, w, a);
    match a
    case Start(move, ok) => StartRoom(rf, cap, w, move, ok, k);
    case Advance(sid, ok) => AdvanceRoom(rf, w, sid, ok, k);
  }

  /** Starts and advances, however many, keep the protocol's invariant while the log has room for as many changes. */
  lemma {:induction false} PerformGood(rf: RepFactor, cap: int, w: World, actions: seq<Action>, k: nat)
    requires Good(rf, cap, w) && WithRoom(w, |actions| + k) && OnlyMoves(actions)
    ensures Good(rf, cap, Perform(rf, cap, w, actions)) && WithRoom(Perform(rf, cap, w, actions), k)
  {
    if actions != [] {
      var front, a := actions[..|actions| - 1], actions[|actions| - 1];
      PerformGood(rf, cap, w, front, k + 1);
      if Permitted(cap, Perform(rf, cap, w, front), a) { MoveActionGood(rf, cap, Perform(rf, cap, w, front), a, k); }
    }
  }

  ghost predicate OthersKept(before: map<Id, Inflight>, after: map<Id, Inflight>, sid: Id)
  {
    && after.Keys <= before.Keys
    && forall x :: x in before && x != sid ==> x in after && after[x] == before[x]
  }

  /** Of the moves listed, the first `k` were looked at and the rest are as they were. */
  ghost predicate Looked(start: map<Id, Inflight>, moves: map<Id, Inflight>, ids: seq<Id>, k: nat, now: int, accepts: Id -> bool)
  {
    && k <= |ids| && moves.Keys <= start.Keys && ToSet(ids) == start.Keys
    && (forall j :: k <= j < |ids| ==> ids[j] in moves && moves[ids[j]] == start[ids[j]])
    && (forall j :: 0 <= j < k && accepts(ids[j]) && Overdue(start[ids[j]], now) ==> ids[j] !in moves)
  }

  lemma LookedNext(start: map<Id, Inflight>, before: map<Id, Inflight>, after: map<Id, Inflight>, ids: seq<Id>, k: nat, now: int, accepts: Id -> bool)
    requires Looked(start, before, ids, k, now, accepts) && k < |ids| && Distinct(ids) && OthersKept(before, after, ids[k])
    requires accepts(ids[k]) && Overdue(before[ids[k]], now) ==> ids[k] !in after
    ensures Looked(start, after, ids, k + 1, now, accepts)
  {
  }

  /** Thirty seconds past the half hour a move may take. */
  ghost predicate Overdue(m: Inflight, now: int)
  {
    InTime(m) && now >= m.startedAt + OVERALL_TIMEOUT + RETRY_MAX
  }

  lemma OverdueEnds(rf: RepFactor, w: World, sid: Id)
    requires |w.run| > 0 && sid in w.moves && Overdue(w.moves[sid], w.now)
    ensures sid !in AdvanceMove(rf, w, sid, true).moves
  {
  }

  /** The advances of the first `k` moves listed. */
  ghost predicate Advances(actions: seq<Action>, ids: seq<Id>, k: nat, accepts: Id -> bool)
  {
    k == |actions| <= |ids| && forall j :: 0 <= j < k ==> actions[j] == Advance(ids[j], accepts(ids[j]))
  }

  lemma AllAdvanced(moves: map<Id, Inflight>, actions: seq<Action>, ids: seq<Id>, accepts: Id -> bool)
    requires Distinct(ids) && ToSet(ids) == moves.Keys && Advances(actions, ids, |ids|, accepts)
    ensures OnlyMoves(actions) && |actions| == |moves|
    ensures forall sid :: sid in moves ==> Advance(sid, accepts(sid)) in actions
  {
    DistinctCard(ids);
    forall sid | sid in moves
      ensures Advance(sid, accepts(sid)) in actions
    {
      assert sid in ToSet(ids);
      var j :| 0 <= j < |ids| && ids[j] == sid;
      assert actions[j] == Advance(sid, accepts(sid));
    }
  }

  lemma AllLooked(start: map<Id, Inflight>, moves: map<Id, Inflight>, ids: seq<Id>, now: int, accepts: Id -> bool)
    requires Looked(start, moves, ids, |ids|, now, accepts)
    ensures forall sid :: sid in start && accepts(sid) && Overdue(start[sid], now) ==> sid !in moves
  {
    forall sid | sid in start && accepts(sid) && Overdue(start[sid], now)
      ensures sid !in moves
    {
      assert sid in ToSet(ids);
    }
  }

  /** Overdue moves whose proposals raft takes are gone; what stands under their shard was started since. */
  ghost predicate NoneOverdue(before: map<Id, Inflight>, after: map<Id, Inflight>, now: int, accepts: Id -> bool)
  {
    forall sid :: sid in before && accepts(sid) && Overdue(before[sid], now) && sid in after ==> after[sid].startedAt == now
  }

  class RebalanceManager {
    const fsm: PlacementFsm
    const maxConcurrent: int
    const maxPerInterval: int
    var membership: map<Id, Membership>
    var progress: map<(Id, Id), Progress>
    var acks: map<(Id, Id), Ack>
    var moves: map<Id, Inflight>
    /** The log so far, and the reports accepted so far. */
    ghost var run: seq<State>
    ghost var reports: seq<Report>

    ghost function Abs(now: int): World
      reads this
    {
      World(run, now, membership, progress, acks, reports, moves)
    }

    ghost predicate Valid()
      reads this, fsm
    {
      |run| > 0 && fsm.Abs() == run[|run| - 1] && HomesUnique(fsm.Abs())
    }

    constructor (fsm: PlacementFsm, maxConcurrent: int, maxPerInterval: int)
      requires HomesUnique(fsm.Abs())
      ensures Valid() && this.fsm == fsm && this.maxConcurrent == maxConcurrent && this.maxPerInterval == maxPerInterval
      ensures forall now :: Abs(now) == World([fsm.Abs()], now, map[], map[], map[], [], map[])
    {
      this.fsm, this.maxConcurrent, this.maxPerInterval := fsm, maxConcurrent, maxPerInterval;
      membership, progress, acks, moves := map[], map[], map[], map[];
      run, reports := [fsm.Abs()], [];
    }

    method IsAssigned(worker: Id, sid: Id) returns (holds: bool)
      requires Valid()
      ensures holds <==> HasReplica(fsm.Abs(), sid, worker)
    {
      var home := fsm.FindShard(sid);
      if home.None? {
        return false;
      }
      var i := FindIndex(fsm.collections[home.value].shards[sid].replicas, worker);
      return i >= 0;
    }

    /** Reports count only from workers assigned to the shard; the epoch claimed is recorded as it is. */
    method TakeProgress(worker: Id, sid: Id, applied: nat, epoch: nat, now: int)
      requires Valid()
      modifies this`progress, this`reports
      ensures Valid() && Abs(now) == After(fsm.rf, old(Abs(now)), ReportProgress(worker, sid, applied, epoch))
    {
      var holds := IsAssigned(worker, sid);
      if holds {
        progress := progress[(sid, worker) := Progress(applied, epoch, now)];
        reports := reports + [Report(worker, sid, applied, epoch)];
      }
    }

    /** Membership counts only from a worker that reports itself as leader and is assigned to the shard. */
    method TakeMembership(worker: Id, sid: Id, claimedLeader: Id, nodes: set<Id>, configChange: nat, now: int)
      requires Valid()
      modifies this`membership
      ensures Valid() && Abs(now) == After(fsm.rf, old(Abs(now)), ReportMembership(worker, sid, claimedLeader, nodes, configChange))
    {
      if claimedLeader != worker {
        return;
      }
      var holds := IsAssigned(worker, sid);
      if holds {
        membership := membership[sid := Membership(nodes, configChange, now)];
      }
    }

    /** A leadership transfer is acknowledged only by the worker it was taken from. */
    method TakeAck(worker: Id, sid: Id, source: Id, target: Id, epoch: nat, now: int)
      requires Valid()
      modifies this`acks
      ensures Valid() && Abs(now) == After(fsm.rf, old(Abs(now)), ReportAck(worker, sid, source, target, epoch))
    {
      if source == worker {
        acks := acks[(sid, worker) := Ack(target, epoch, now)];
      }
    }

    /** What a move sees of the workers and of the reports that are still fresh. */
    method Look(m: Inflight, sh: Shard, now: int) returns (v: View)
      requires Valid()
      ensures v == ViewOf(Abs(now), m, sh)
    {
      var sid, target := m.move.shard, m.move.target;
      var healthy := target in fsm.workers && Healthy(fsm.workers[target], now);
      var running := false;
      if target in fsm.workers {
        var i := FindIndex(fsm.workers[target].running, sid);
        running := i >= 0;
      }
      var members := None;
      if sid in membership && now - membership[sid].at <= REPORT_STALE_AFTER {
        members := Some(membership[sid]);
      }
      var ack := None;
      if (sid, m.move.source) in acks && now - acks[(sid, m.move.source)].at <= ACK_STALE_AFTER {
        ack := Some(acks[(sid, m.move.source)]);
      }
      var leaderAt, targetAt := ProgressOf(sid, sh.leader, now), ProgressOf(sid, target, now);
      return View(healthy, running, members, leaderAt, targetAt, ack);
    }

    function ProgressOf(sid: Id, node: Id, now: int): (p: Option<Progress>)
      reads this
      ensures p == FreshProgress(Abs(now), sid, node)
    {
      if (sid, node) !in progress || now - progress[(sid, node)].at > REPORT_STALE_AFTER then None
      else Some(progress[(sid, node)])
    }

    method Submit(sid: Id, p: Proposal, now: int)
      requires HomesUnique(fsm.Abs())
      modifies fsm`collections, fsm`assignmentsEpoch
      ensures fsm.Abs() == Proposed(fsm.rf, old(fsm.Abs()), sid, p, now)
    {
      match p
      case AddReplica(x) =>
        var _ := fsm.AddReplica(sid, x, now);
      case RemoveReplica(x) =>
        var _ := fsm.RemoveReplica(sid, x);
    }

    /** A proposal raft takes; whether the state machine refuses it is not looked at. */
    method Propose(sid: Id, p: Proposal, now: int)
      requires Valid()
      modifies fsm`collections, fsm`assignmentsEpoch, this`run
      ensures Valid() && Abs(now) == Logged(fsm.rf, old(Abs(now)), CommandOf(sid, p), EnvAt(now))
    {
      ProposedIsApplied(fsm.rf, fsm.Abs(), sid, p, now);
      ProposalKeepsHomes(fsm.rf, fsm.Abs(), sid, p, now);
      Submit(sid, p, now);
      run := run + [fsm.Abs()];
    }

    /** Looking at one move once. */
    method AdvanceOne(sid: Id, now: int, accepted: bool)
      requires Valid() && sid in moves
      modifies fsm`collections, fsm`assignmentsEpoch, this`run, this`moves
      ensures Valid() && Abs(now) == AdvanceMove(fsm.rf, old(Abs(now)), sid, accepted)
      ensures OthersKept(old(moves), moves, sid)
    {
      var home := fsm.FindShard(sid);
      if home.None? {
        moves := moves - {sid};
        return;
      }
      var sh := fsm.collections[home.value].shards[sid];
      var v := Look(moves[sid], sh, now);
      var d := Decide(fsm.rf, moves[sid], sh, v, now);
      if d.Propose? && accepted {
        Propose(sid, d.proposal, now);
      }
      var left := Settled(d, accepted);
      if left.Some? {
        moves := moves[sid := left.value];
      } else {
        moves := moves - {sid};
      }
    }

    /** The manager is where `actions` lead from `w`. */
    ghost predicate Reached(w: World, actions: seq<Action>)
      reads this, fsm
    {
      Valid() && Abs(w.now) == Perform(fsm.rf, maxConcurrent, w, actions)
    }

    method AdvanceNext(sid: Id, now: int, accepted: bool, ghost w: World, ghost before: seq<Action>)
      returns (ghost actions: seq<Action>)
      requires Reached(w, before) && w.now == now && sid in moves
      modifies fsm`collections, fsm`assignmentsEpoch, this`run, this`moves
      ensures Reached(w, actions) && actions == before + [Advance(sid, accepted)]
      ensures OthersKept(old(moves), moves, sid)
      ensures accepted && Overdue(old(moves)[sid], now) ==> sid !in moves
    {
      PerformSnoc(fsm.rf, maxConcurrent, w, before, Advance(sid, accepted));
      if accepted && Overdue(moves[sid], now) { OverdueEnds(fsm.rf, Abs(now), sid); }
      AdvanceOne(sid, now, accepted);
      actions := before + [Advance(sid, accepted)];
    }

    /** The first `k` of the moves listed were looked at, and that is all that was done since `w`. */
    ghost predicate Advanced(w: World, actions: seq<Action>, ids: seq<Id>, k: nat, accepts: Id -> bool)
      reads this, fsm
    {
      Reached(w, actions) && Looked(w.moves, moves, ids, k, w.now, accepts) && Advances(actions, ids, k, accepts)
    }

    method AdvanceListed(ids: seq<Id>, k: nat, now: int, accepts: Id -> bool, ghost w: World, ghost before: seq<Action>)
      returns (ghost actions: seq<Action>)
      requires Advanced(w, before, ids, k, accepts) && k < |ids| && Distinct(ids) && w.now == now
      modifies fsm`collections, fsm`assignmentsEpoch, this`run, this`moves
      ensures Advanced(w, actions, ids, k + 1, accepts)
    {
      ghost var was := moves;
      actions := AdvanceNext(ids[k], now, accepts(ids[k]), w, before);
      LookedNext(w.moves, was, moves, ids, k, now, accepts);
    }

    /** Looking at every move in flight, in map order; `accepts` says whose proposal raft takes. */
    method AdvanceMoves(now: int, accepts: Id -> bool) returns (ghost actions: seq<Action>)
      requires Valid()
      modifies fsm`collections, fsm`assignmentsEpoch, this`run, this`moves
      ensures Reached(old(Abs(now)), actions) && moves.Keys <= old(moves).Keys
      ensures OnlyMoves(actions) && |actions| == |old(moves)|
      ensures forall sid :: sid in old(moves) ==> Advance(sid, accepts(sid)) in actions
      ensures forall sid :: sid in old(moves) && accepts(sid) && Overdue(old(moves)[sid], now) ==> sid !in moves
    {
      ghost var w := Abs(now);
      actions := [];
      var ids := KeysOf(moves);
      assert ToSet(ids) == moves.Keys;
      for k := 0 to |ids|
        invariant Advanced(w, actions, ids, k, accepts)
      {
        actions := AdvanceListed(ids, k, now, accepts, w, actions);
      }
      AllAdvanced(w.moves, actions, ids, accepts);
      AllLooked(w.moves, moves, ids, now, accepts);
    }

    /** Starting a planned move; `false` stands for an error. */
    method ExecuteMove(move: Move, now: int, accepted: bool) returns (ok: bool)
      requires Valid() && move.shard !in moves && |moves| < maxConcurrent
      modifies fsm`collections, fsm`assignmentsEpoch, this`run, this`moves
      ensures Valid() && |moves| == |old(moves)| + if ok then 1 else 0
      ensures if MayStart(maxConcurrent, old(Abs(now)), move)
        then Abs(now) == StartMove(fsm.rf, old(Abs(now)), move, accepted)
        else !ok && Abs(now) == old(Abs(now))
      ensures ok <==>
        && move.source != move.target && IsHealthy(fsm.workers, move.target, now) && Exists(old(fsm.Abs()), move.shard)
        && (HasReplica(old(fsm.Abs()), move.shard, move.target) || accepted)
    {
      if move.source == move.target || move.target !in fsm.workers || !Healthy(fsm.workers[move.target], now) {
        return false;
      }
      var home := fsm.FindShard(move.shard);
      if home.None? {
        return false;
      }
      var i := FindIndex(fsm.collections[home.value].shards[move.shard].replicas, move.target);
      if i < 0 {
        if !accepted {
          return false;
        }
        Propose(move.shard, AddReplica(move.target), now);
      }
      RecordMove(move, now, i < 0);
      return true;
    }

    method RecordMove(move: Move, now: int, added: bool)
      requires Valid()
      modifies this`moves
      ensures var epoch := if Exists(fsm.Abs(), move.shard) then ShardOf(fsm.Abs(), move.shard).epoch else 0;
        moves == old(moves)[move.shard := NewMove(old(Abs(now)), move, added, epoch)]
    {
      var home := fsm.FindShard(move.shard);
      var epoch := if home.Some? then fsm.collections[home.value].shards[move.shard].epoch else 0;
      var change := 0;
      if move.shard in membership && now - membership[move.shard].at <= REPORT_STALE_AFTER {
        change := membership[move.shard].configChange;
      }
      moves := moves[move.shard := Inflight(move, now, now, now, 0, added, WaitTarget, change, 0, 0, epoch, false, 0)];
    }

    method StartNext(move: Move, now: int, accepted: bool, ghost w: World, ghost before: seq<Action>)
      returns (ok: bool, ghost actions: seq<Action>)
      requires Reached(w, before) && w.now == now && move.shard !in moves && |moves| < maxConcurrent
      modifies fsm`collections, fsm`assignmentsEpoch, this`run, this`moves
      ensures Reached(w, actions) && |moves| == |old(moves)| + if ok then 1 else 0
      ensures actions == before || actions == before + [Start(move, accepted)]
      ensures forall sid :: sid in moves ==> (sid in old(moves) && moves[sid] == old(moves)[sid]) || moves[sid].startedAt == now
    {
      ghost var permitted := MayStart(maxConcurrent, Abs(now), move);
      if permitted { PerformSnoc(fsm.rf, maxConcurrent, w, before, Start(move, accepted)); }
      ok := ExecuteMove(move, now, accepted);
      actions := if permitted then before + [Start(move, accepted)] else before;
    }

    /** One cycle: advance every move, then start planned moves while slots last. It is a sequence of permitted advances
        and starts, never exceeds the cap, leaves no move past its deadline whose proposals raft takes, and, from a world
        that meets the protocol's invariant, with room for as many changes of configuration, leads to one that does. */
    method RunCycle(now: int, planned: seq<Move>, accepts: Id -> bool, takes: nat -> bool) returns (ghost actions: seq<Action>)
      requires Valid() && |moves| <= Max(maxConcurrent, 0)
      modifies fsm`collections, fsm`assignmentsEpoch, this`run, this`moves
      ensures Reached(old(Abs(now)), actions) && |moves| <= Max(maxConcurrent, 0)
      ensures |moves| <= |old(moves)| + Max(0, Min(maxPerInterval, |planned|))
      ensures OnlyMoves(actions) && |actions| <= |old(moves)| + |planned|
      ensures forall sid :: sid in old(moves) ==> Advance(sid, accepts(sid)) in actions
      ensures NoneOverdue(old(moves), moves, now, accepts)
      ensures Good(fsm.rf, maxConcurrent, old(Abs(now))) && WithRoom(old(Abs(now)), |old(moves)| + |planned|) ==>
        Good(fsm.rf, maxConcurrent, Abs(now))
    {
      ghost var w := Abs(now);
      actions := AdvanceMoves(now, accepts);
      SubsetCard(moves.Keys, w.moves.Keys);
      actions := StartMoves(now, planned, takes, w, actions, accepts);
      if Good(fsm.rf, maxConcurrent, w) && WithRoom(w, |w.moves| + |planned|) {
        PerformGood(fsm.rf, maxConcurrent, w, actions, |w.moves| + |planned| - |actions|);
      }
    }

    /** Up to `k` more actions were performed since `before`, and none left a move overdue. */
    ghost predicate Started(w: World, before: seq<Action>, actions: seq<Action>, k: nat, accepts: Id -> bool)
      reads this, fsm
    {
      Reached(w, actions) && Continues(before, actions, k) && NoneOverdue(w.moves, moves, w.now, accepts)
    }

    method StartListed(move: Move, now: int, accepted: bool, k: nat, ghost w: World, ghost before: seq<Action>, ghost sofar: seq<Action>, ghost accepts: Id -> bool)
      returns (ok: bool, ghost actions: seq<Action>)
      requires Started(w, before, sofar, k, accepts) && w.now == now && move.shard !in moves && |moves| < maxConcurrent
      modifies fsm`collections, fsm`assignmentsEpoch, this`run, this`moves
      ensures Started(w, before, actions, k + 1, accepts) && |moves| == |old(moves)| + if ok then 1 else 0
    {
      ok, actions := StartNext(move, now, accepted, w, sofar);
    }

    /** Starting planned moves in the slots left. */
    method StartMoves(now: int, planned: seq<Move>, takes: nat -> bool, ghost w: World, ghost before: seq<Action>, ghost accepts: Id -> bool)
      returns (ghost actions: seq<Action>)
      requires Reached(w, before) && w.now == now && OnlyMoves(before) && NoneOverdue(w.moves, moves, now, accepts)
      requires |moves| <= Max(maxConcurrent, 0)
      modifies fsm`collections, fsm`assignmentsEpoch, this`run, this`moves
      ensures Reached(w, actions) && OnlyMoves(actions) && NoneOverdue(w.moves, moves, now, accepts)
      ensures |moves| <= Max(maxConcurrent, 0) && |moves| <= |old(moves)| + Max(0, Min(maxPerInterval, |planned|))
      ensures before <= actions && |actions| <= |before| + |planned|
    {
      actions := before;
      var available := maxConcurrent - |moves|;
      if available <= 0 || |planned| == 0 {
        return;
      }
      var limit := maxPerInterval;
      if limit > |planned| {
        limit := |planned|;
      }
      if limit > available {
        limit := available;
      }
      ghost var base := |moves|;
      var started := 0;
      for k := 0 to |planned|
        invariant Started(w, before, actions, k, accepts) && 0 <= started <= Max(0, limit) && |moves| == base + started
      {
        if started >= limit {
          break;
        }
        if planned[k].shard !in moves {
          var ok;
          ok, actions := StartListed(planned[k], now, takes(k), k, w, before, actions, accepts);
          if ok {
            started := started + 1;
          }
        }
      }
    }
  }
}
