/** One shard move of the background rebalancer: what it decides each time it is looked at. */
module MovePlan {
  import opened Prelude
  import opened FsmTypes

  datatype Phase = AddTarget | WaitTarget | RemoveSource | WaitRemoval

  datatype Move = Move(shard: Id, source: Id, target: Id)

  datatype Inflight = Inflight(
    move: Move, startedAt: int, lastProgress: int, nextAttempt: int, attempts: nat, addedByMove: bool, phase: Phase,
    addConfigChange: nat, removeConfigChange: nat, requiredIndex: nat, requiredEpoch: nat,
    waitAck: bool, requiredAckEpoch: nat)

  datatype Progress = Progress(applied: nat, epoch: nat, at: int)
  datatype Membership = Membership(nodes: set<Id>, configChange: nat, at: int)
  datatype Ack = Ack(to: Id, epoch: nat, at: int)

  /** What a move sees besides its shard: the target's health and running shards, and the reports still fresh. */
  datatype View = View(
    targetHealthy: bool, targetRunning: bool, membership: Option<Membership>,
    leaderProgress: Option<Progress>, targetProgress: Option<Progress>, sourceAck: Option<Ack>)

  const SECOND: int := 1_000_000_000
  const RETRY_BASE: int := 2 * SECOND
  const RETRY_MAX: int := 30 * SECOND
  const OVERALL_TIMEOUT: int := 1800 * SECOND
  const REPORT_STALE_AFTER: int := 30 * SECOND
  const ACK_STALE_AFTER: int := 300 * SECOND

  // ---------------------------------------------------------------- retries

  function Shift(n: nat): nat
  {
    if n == 0 then 1 else 2 * Shift(n - 1)
  }

  /** The delay before the next attempt: a left shift of the base, at most ten places, capped. */
  function Backoff(attempts: nat): int
  {
    var delay := RETRY_BASE * Shift(if attempts > 10 then 10 else attempts);
    if delay > RETRY_MAX then RETRY_MAX else delay
  }

  lemma {:induction false} ShiftMonotone(a: nat, b: nat)
    requires a <= b
    ensures 1 <= Shift(a) <= Shift(b)
  {
    if a < b {
      ShiftMonotone(a, b - 1);
    } else if b > 0 {
      ShiftMonotone(a - 1, b - 1);
    }
  }

  /** The delay is two seconds doubled per attempt, at most thirty seconds: the cap on the shift never shows. */
  lemma BackoffIsCappedDoubling(attempts: nat)
    ensures Backoff(attempts) == Min(RETRY_MAX, RETRY_BASE * Shift(attempts))
  {
    if attempts > 10 {
      ShiftMonotone(4, 10);
      ShiftMonotone(4, attempts);
      assert Shift(4) == 16;
    }
  }

  /** The delay never shrinks from one attempt to the next within a phase. */
  lemma BackoffNeverShrinks(a: nat, b: nat)
    requires a <= b
    ensures RETRY_BASE <= Backoff(a) <= Backoff(b) <= RETRY_MAX
  {
    BackoffIsCappedDoubling(a);
    BackoffIsCappedDoubling(b);
    ShiftMonotone(a, b);
    ShiftMonotone(0, a);
  }

  function Retry(m: Inflight, now: int): Inflight
  {
    m.(attempts := m.attempts + 1, nextAttempt := now + Backoff(m.attempts))
  }

  function Enter(m: Inflight, phase: Phase, now: int): Inflight
  {
    m.(phase := phase, lastProgress := now, attempts := 0, nextAttempt := now)
  }

  // ---------------------------------------------------------------- decisions

  datatype Proposal = AddReplica(worker: Id) | RemoveReplica(worker: Id)

  /** What to do about a move: carry on, drop it, or propose a command and act on whether raft took it. */
  datatype Decision =
    | Keep(move: Inflight)
    | Finish
    | Propose(proposal: Proposal, onSuccess: Option<Inflight>, onError: Inflight)

  /** The epoch to wait for moves up with the shard, forgetting an index recorded for an older one. */
  function Refreshed(m: Inflight, epoch: nat): Inflight
  {
    if m.requiredEpoch == 0 || m.requiredEpoch < epoch then m.(requiredEpoch := epoch, requiredIndex := 0) else m
  }

  function Recorded(m: Inflight, leader: Progress, now: int): Inflight
  {
    if m.requiredIndex == 0 then m.(requiredIndex := leader.applied, lastProgress := now) else m
  }

  function DecideWaitTarget(m: Inflight, sh: Shard, v: View, now: int): Inflight
  {
    if !v.targetHealthy || !v.targetRunning then m
    else if v.membership.None? || m.move.target !in v.membership.value.nodes then Retry(m, now)
    else if m.addedByMove && m.addConfigChange > 0 && v.membership.value.configChange <= m.addConfigChange then Retry(m, now)
    else
      var m1 := Refreshed(m, sh.epoch);
      if sh.leader == 0 || v.leaderProgress.None? || v.leaderProgress.value.epoch < m1.requiredEpoch then Retry(m1, now)
      else
        var m2 := Recorded(m1, v.leaderProgress.value, now);
        if v.targetProgress.None? || v.targetProgress.value.epoch < m2.requiredEpoch then Retry(m2, now)
        else if v.targetProgress.value.applied < m2.requiredIndex then Retry(m2, now)
        else Enter(m2, RemoveSource, now)
  }

  function DecideRemoveSource(m: Inflight, sh: Shard, v: View, now: int): Decision
  {
    if m.move.source !in sh.replicas then Keep(Enter(m, WaitRemoval, now))
    else
      var m1 := if m.requiredAckEpoch == 0 && sh.leader == m.move.source
                then m.(waitAck := true, requiredAckEpoch := Inc64(sh.epoch)) else m;
      var m2 := if m1.removeConfigChange == 0 && v.membership.Some?
                then m1.(removeConfigChange := v.membership.value.configChange) else m1;
      Propose(RemoveReplica(m.move.source), Some(Enter(m2, WaitRemoval, now)), Retry(m2, now))
  }

  function DecideWaitRemoval(m: Inflight, sh: Shard, v: View, now: int): Decision
  {
    if v.membership.None? || m.move.source in v.membership.value.nodes then Keep(Retry(m, now))
    else if m.removeConfigChange > 0 && v.membership.value.configChange <= m.removeConfigChange then Keep(Retry(m, now))
    else if m.waitAck && (v.sourceAck.None? || v.sourceAck.value.epoch < m.requiredAckEpoch) then Keep(Retry(m, now))
    else if sh.leader == m.move.source then Keep(Retry(m, now))
    else Finish
  }

  /** Giving up after the overall timeout: take back the replica the move added, if that is still possible. */
  function DecideRollback(rf: RepFactor, m: Inflight, sh: Shard, now: int): Decision
  {
    if m.move.source !in sh.replicas || !m.addedByMove || m.move.target !in sh.replicas || |sh.replicas| <= rf then Finish
    else Propose(RemoveReplica(m.move.target), None, Retry(m, now))
  }

  function Decide(rf: RepFactor, m: Inflight, sh: Shard, v: View, now: int): Decision
  {
    if now < m.nextAttempt then Keep(m)
    else if now - m.startedAt > OVERALL_TIMEOUT then DecideRollback(rf, m, sh, now)
    else match m.phase
      case AddTarget =>
        if m.move.target in sh.replicas then Keep(Enter(m, WaitTarget, now))
        else Propose(AddReplica(m.move.target), Some(Enter(m, WaitTarget, now)), Retry(m, now))
      case WaitTarget => Keep(DecideWaitTarget(m, sh, v, now))
      case RemoveSource => DecideRemoveSource(m, sh, v, now)
      case WaitRemoval => DecideWaitRemoval(m, sh, v, now)
  }

  // ---------------------------------------------------------------- what a decision can be

  /** A move passes from waiting for its target to removing its source only on two fresh reports at an epoch no older
      than the shard's: the target's, and an index read from the leader's, which the target has reached. */
  lemma RemovalNeedsCaughtUpTarget(rf: RepFactor, m: Inflight, sh: Shard, v: View, now: int, m': Inflight)
    requires m.phase == WaitTarget && Decide(rf, m, sh, v, now) == Keep(m') && m'.phase == RemoveSource
    ensures m'.move == m.move && m'.requiredEpoch >= sh.epoch && sh.leader != 0
    ensures v.leaderProgress.Some? && v.leaderProgress.value.epoch >= m'.requiredEpoch
    ensures v.targetProgress.Some? && v.targetProgress.value.epoch >= m'.requiredEpoch
    ensures v.targetProgress.value.applied >= m'.requiredIndex
    ensures m'.requiredEpoch == Refreshed(m, sh.epoch).requiredEpoch
    ensures m'.requiredIndex == v.leaderProgress.value.applied
         || (m'.requiredIndex == m.requiredIndex > 0 && m'.requiredEpoch == m.requiredEpoch)
  {
  }

  /** A move proposes only to add its own target, to remove its own source once the target has caught up, or, past the
      overall timeout, to take back the target it added itself, while the source still holds the shard and the shard has
      replicas to spare. */
  lemma ProposalsAreOwn(rf: RepFactor, m: Inflight, sh: Shard, v: View, now: int)
    requires Decide(rf, m, sh, v, now).Propose?
    ensures var p := Decide(rf, m, sh, v, now).proposal;
      || (p == AddReplica(m.move.target) && m.phase == AddTarget && m.move.target !in sh.replicas)
      || (p == RemoveReplica(m.move.source) && m.phase == RemoveSource && m.move.source in sh.replicas
          && now - m.startedAt <= OVERALL_TIMEOUT)
      || (p == RemoveReplica(m.move.target) && m.addedByMove && now - m.startedAt > OVERALL_TIMEOUT
          && m.move.source in sh.replicas && m.move.target in sh.replicas && |sh.replicas| > rf)
  {
  }

  /** A move within its time ends only from its last phase, once the members of the shard's raft group, reported after
      the removal began, no longer include the source, leadership it held was handed over, and it is not the leader. */
  lemma CompletionMeansSourceGone(rf: RepFactor, m: Inflight, sh: Shard, v: View, now: int)
    requires Decide(rf, m, sh, v, now).Finish? && now - m.startedAt <= OVERALL_TIMEOUT
    ensures m.phase == WaitRemoval && v.membership.Some? && m.move.source !in v.membership.value.nodes && sh.leader != m.move.source
    ensures m.removeConfigChange > 0 ==> v.membership.value.configChange > m.removeConfigChange
    ensures m.waitAck ==> v.sourceAck.Some? && v.sourceAck.value.epoch >= m.requiredAckEpoch
  {
  }

  /** The result a decision leaves for the move, given whether raft took the proposal. */
  function Settled(d: Decision, ok: bool): Option<Inflight>
  {
    match d
    case Keep(m) => Some(m)
    case Finish => None
    case Propose(_, onSuccess, onError) => if ok then onSuccess else Some(onError)
  }

  /** Where the index and epoch a move waits for come from: kept, forgotten, or read from a report of the leader at an
      epoch no older than the shard's. */
  ghost predicate Provenance(m: Inflight, n: Inflight, sh: Shard, v: View)
  {
    && n.move == m.move
    && ( || (n.requiredEpoch == m.requiredEpoch && n.requiredIndex == m.requiredIndex)
         || n.requiredIndex == 0
         || (v.leaderProgress.Some? && n.requiredIndex == v.leaderProgress.value.applied
             && v.leaderProgress.value.epoch >= n.requiredEpoch >= sh.epoch))
  }

  lemma DecisionProvenance(rf: RepFactor, m: Inflight, sh: Shard, v: View, now: int, ok: bool)
    ensures var s := Settled(Decide(rf, m, sh, v, now), ok); s.Some? ==> Provenance(m, s.value, sh, v)
  {
    if now >= m.nextAttempt && now - m.startedAt <= OVERALL_TIMEOUT {
      match m.phase
      case AddTarget =>
      case WaitTarget =>
      case RemoveSource =>
      case WaitRemoval =>
    }
  }

  /** The target was found to have caught up. */
  predicate Late(m: Inflight)
  {
    m.phase == RemoveSource || m.phase == WaitRemoval
  }

  /** A move that has started never goes back to adding its target, and gets past waiting for it only by the decision that
      finds it caught up; from then on what it waited for stays recorded. */
  lemma LateDecisions(rf: RepFactor, m: Inflight, sh: Shard, v: View, now: int, ok: bool)
    requires m.phase != AddTarget
    ensures var s := Settled(Decide(rf, m, sh, v, now), ok);
      s.Some? ==> s.value.phase != AddTarget && s.value.move == m.move
    ensures var s := Settled(Decide(rf, m, sh, v, now), ok);
      s.Some? && Late(s.value) ==>
        || (Late(m) && s.value.requiredEpoch == m.requiredEpoch && s.value.requiredIndex == m.requiredIndex)
        || (m.phase == WaitTarget && s.value.phase == RemoveSource && Decide(rf, m, sh, v, now) == Keep(s.value))
  {
  }

  /** Every decision but a failed rollback leaves a next attempt within the deadline. */
  ghost predicate InTime(m: Inflight)
  {
    m.nextAttempt <= m.startedAt + OVERALL_TIMEOUT + RETRY_MAX
  }

  /** `n` is a successor of `m`: the same move, started at the same time, with a next attempt within the deadline. */
  ghost predicate Successor(m: Inflight, n: Inflight)
  {
    n.move == m.move && n.startedAt == m.startedAt && InTime(n)
  }

  lemma RetryInTime(m: Inflight, now: int)
    requires now <= m.startedAt + OVERALL_TIMEOUT
    ensures Successor(m, Retry(m, now))
    ensures forall phase :: Successor(m, Enter(m, phase, now))
  {
  }

  lemma DecisionInTime(rf: RepFactor, m: Inflight, sh: Shard, v: View, now: int, ok: bool)
    requires InTime(m) && (ok || now - m.startedAt <= OVERALL_TIMEOUT)
    ensures var s := Settled(Decide(rf, m, sh, v, now), ok); s.Some? ==> Successor(m, s.value)
  {
    if now - m.startedAt <= OVERALL_TIMEOUT {
      RetryInTime(m, now);
      match m.phase
      case AddTarget =>
      case WaitTarget =>
      case RemoveSource =>
        var d := DecideRemoveSource(m, sh, v, now);
        if d.Propose? {
          RetryInTime(m.(waitAck := d.onError.waitAck, requiredAckEpoch := d.onError.requiredAckEpoch,
                         removeConfigChange := d.onError.removeConfigChange), now);
        }
      case WaitRemoval =>
    }
  }

  /** Past the deadline, a decision whose proposal raft takes ends the move. */
  lemma DeadlineEndsMove(rf: RepFactor, m: Inflight, sh: Shard, v: View, now: int)
    requires InTime(m) && now >= m.startedAt + OVERALL_TIMEOUT + RETRY_MAX
    ensures Settled(Decide(rf, m, sh, v, now), true).None?
  {
  }
}
