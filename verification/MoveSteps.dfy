/** When each phase of a move is left, and what looking at a move records: exact conditions on the world looked at. */
module MoveSteps {
  import opened Prelude
  import opened FsmTypes
  import opened FsmModel
  import opened FsmInvariant
  import opened MovePlan
  import opened Rebalance
  import CommandEffects

  // ---------------------------------------------------------------- what is looked at

  /** A move whose shard exists is looked at when its next attempt is due. */
  ghost predicate Due(w: World, sid: Id)
  {
    && |w.run| > 0 && sid in w.moves && w.moves[sid].move.shard == sid && Exists(Current(w), sid)
    && w.now >= w.moves[sid].nextAttempt
  }

  /** Half an hour, in nanoseconds, has not passed since it started. */
  ghost predicate InTimeNow(w: World, sid: Id)
  {
    Due(w, sid) && w.now - w.moves[sid].startedAt <= 1800 * 1_000_000_000
  }

  ghost function ShardAt(w: World, sid: Id): Shard
    requires |w.run| > 0 && Exists(Current(w), sid)
  {
    ShardOf(Current(w), sid)
  }

  /** A report at most thirty seconds old of how far a worker has got with the shard. */
  ghost predicate Heard(w: World, sid: Id, x: Id)
  {
    (sid, x) in w.progress && w.now - w.progress[(sid, x)].at <= 30 * 1_000_000_000
  }

  /** A report at most thirty seconds old of the shard's raft members. */
  ghost predicate MembersKnown(w: World, sid: Id)
  {
    sid in w.membership && w.now - w.membership[sid].at <= 30 * 1_000_000_000
  }

  /** The target runs the shard, and says that it is in good health. */
  ghost predicate TargetUp(w: World, sid: Id)
    requires Due(w, sid)
  {
    var target := w.moves[sid].move.target;
    && target in Current(w).workers && Current(w).workers[target].state == Ready
    && w.now - Current(w).workers[target].lastHeartbeat < 30 * 1_000_000_000 && sid in Current(w).workers[target].running
  }

  /** The target is a raft member, by a report later than the change that added it. */
  ghost predicate TargetJoined(w: World, sid: Id)
    requires Due(w, sid)
  {
    var m := w.moves[sid];
    && MembersKnown(w, sid) && m.move.target in w.membership[sid].nodes
    && (m.addedByMove ==> m.addConfigChange == 0 || w.membership[sid].configChange > m.addConfigChange)
  }

  /** The epoch that reports must have: the shard's, or a newer one already waited for. */
  ghost function EpochAwaited(w: World, sid: Id): nat
    requires Due(w, sid)
  {
    if ShardAt(w, sid).epoch > w.moves[sid].requiredEpoch then ShardAt(w, sid).epoch else w.moves[sid].requiredEpoch
  }

  /** An index was recorded, at an epoch no older than the shard's. */
  ghost predicate IndexHeld(w: World, sid: Id)
    requires Due(w, sid)
  {
    w.moves[sid].requiredIndex > 0 && w.moves[sid].requiredEpoch > 0 && ShardAt(w, sid).epoch <= w.moves[sid].requiredEpoch
  }

  ghost predicate LeaderHeard(w: World, sid: Id)
    requires Due(w, sid)
  {
    var leader := ShardAt(w, sid).leader;
    leader != 0 && Heard(w, sid, leader) && w.progress[(sid, leader)].epoch >= EpochAwaited(w, sid)
  }

  /** The index to be reached: the one held, or else the one the leader reports now. */
  ghost function IndexAwaited(w: World, sid: Id): nat
    requires Due(w, sid) && LeaderHeard(w, sid)
  {
    if IndexHeld(w, sid) then w.moves[sid].requiredIndex else w.progress[(sid, ShardAt(w, sid).leader)].applied
  }

  ghost predicate TargetThere(w: World, sid: Id)
    requires Due(w, sid) && LeaderHeard(w, sid)
  {
    var target := w.moves[sid].move.target;
    && Heard(w, sid, target) && w.progress[(sid, target)].epoch >= EpochAwaited(w, sid)
    && w.progress[(sid, target)].applied >= IndexAwaited(w, sid)
  }

  ghost predicate TargetReady(w: World, sid: Id)
    requires Due(w, sid)
  {
    TargetUp(w, sid) && TargetJoined(w, sid) && LeaderHeard(w, sid) && TargetThere(w, sid)
  }

  // ---------------------------------------------------------------- what looking leaves behind

  /** Nothing but the record of this move has changed. */
  ghost predicate OnlyMove(w: World, w': World, sid: Id)
  {
    w' == w.(moves := w'.moves) && sid in w'.moves && w'.moves == w.moves[sid := w'.moves[sid]]
  }

  /** The record of this move has changed, and a command was put at the end of the log. */
  ghost predicate Commanded(rf: RepFactor, w: World, w': World, sid: Id, cmd: Command)
  {
    && |w.run| > 0 && w' == w.(moves := w'.moves, run := w'.run)
    && sid in w'.moves && w'.moves == w.moves[sid := w'.moves[sid]]
    && w'.run == w.run + [Apply(rf, Current(w), cmd, EnvAt(w.now)).state]
  }

  /** The move is gone, and nothing else has changed. */
  ghost predicate Dropped(w: World, w': World, sid: Id)
  {
    w' == w.(moves := w.moves - {sid})
  }

  /** To be tried again: after two seconds, twice as long each time, and at most thirty. */
  ghost predicate Again(m: Inflight, m': Inflight, now: int)
  {
    m' == m.(attempts := m.attempts + 1, nextAttempt := now + Min(30 * 1_000_000_000, 2 * 1_000_000_000 * Shift(m.attempts)))
  }

  /** Another phase begins. */
  ghost predicate Begins(m: Inflight, m': Inflight, phase: Phase, now: int)
  {
    m' == m.(phase := phase, attempts := 0, nextAttempt := now, lastProgress := now)
  }

  lemma RetryIsAgain(m: Inflight, now: int)
    ensures Again(m, Retry(m, now), now)
  {
    BackoffIsCappedDoubling(m.attempts);
  }

  // ---------------------------------------------------------------- each phase

  /** Between attempts a move is left alone. */
  lemma NotDueIsKept(rf: RepFactor, w: World, sid: Id, ok: bool)
    requires |w.run| > 0 && sid in w.moves && Exists(Current(w), sid) && w.now < w.moves[sid].nextAttempt
    ensures AdvanceMove(rf, w, sid, ok) == w
  {
    assert w.moves[sid := w.moves[sid]] == w.moves;
  }

  /** A move whose shard is gone is dropped. */
  lemma GoneIsDropped(rf: RepFactor, w: World, sid: Id, ok: bool)
    requires |w.run| > 0 && sid in w.moves && !Exists(Current(w), sid)
    ensures Dropped(w, AdvanceMove(rf, w, sid, ok), sid)
  {
  }

  /** A move that has yet to add its target proposes that, unless the target is a replica already. */
  lemma AddTargetStep(rf: RepFactor, w: World, sid: Id, ok: bool)
    requires InTimeNow(w, sid) && w.moves[sid].phase == AddTarget
    ensures var w' := AdvanceMove(rf, w, sid, ok); var m := w.moves[sid]; var target := m.move.target;
      if target in ShardAt(w, sid).replicas then OnlyMove(w, w', sid) && Begins(m, w'.moves[sid], WaitTarget, w.now)
      else if ok then Commanded(rf, w, w', sid, AddShardReplica(sid, target)) && Begins(m, w'.moves[sid], WaitTarget, w.now)
      else OnlyMove(w, w', sid) && Again(m, w'.moves[sid], w.now)
  {
    RetryIsAgain(w.moves[sid], w.now);
  }

  /** A waiting move goes on to remove its source if and only if its target is up, has joined, and has reached, on fresh
      reports of it and of the leader at the epoch awaited, the index awaited; and then that is what it records. */
  lemma WaitTargetStep(rf: RepFactor, w: World, sid: Id, ok: bool)
    requires InTimeNow(w, sid) && w.moves[sid].phase == WaitTarget
    ensures var w' := AdvanceMove(rf, w, sid, ok); var m := w.moves[sid];
      && OnlyMove(w, w', sid)
      && (w'.moves[sid].phase == RemoveSource <==> TargetReady(w, sid))
      && (!TargetReady(w, sid) ==> w'.moves[sid].phase == WaitTarget)
      && (TargetReady(w, sid) ==>
            Begins(m.(requiredEpoch := EpochAwaited(w, sid), requiredIndex := IndexAwaited(w, sid)), w'.moves[sid], RemoveSource, w.now))
  {
    if !TargetReady(w, sid) { TargetWaits(rf, w, sid, ok); }
  }

  /** What a move that goes on waiting keeps in mind: nothing, while its target is down; when to look again, while that has
      not joined; and then the epoch awaited, and the index, once the leader was heard. */
  lemma TargetWaits(rf: RepFactor, w: World, sid: Id, ok: bool)
    requires InTimeNow(w, sid) && w.moves[sid].phase == WaitTarget && !TargetReady(w, sid)
    ensures var w' := AdvanceMove(rf, w, sid, ok); var m := w.moves[sid]; var m' := w'.moves[sid];
      && OnlyMove(w, w', sid)
      && if !TargetUp(w, sid) then m' == m
         else if !TargetJoined(w, sid) then Again(m, m', w.now)
         else if !LeaderHeard(w, sid) then Again(EpochNoted(w, sid), m', w.now)
         else Again(IndexNoted(w, sid), m', w.now)
  {
    if TargetUp(w, sid) && TargetJoined(w, sid) { TargetLags(rf, w, sid, ok); } else { RetryIsAgain(w.moves[sid], w.now); }
  }

  /** With the epoch awaited, and the index held if it is for that epoch. */
  ghost function EpochNoted(w: World, sid: Id): Inflight
    requires Due(w, sid)
  {
    w.moves[sid].(requiredEpoch := EpochAwaited(w, sid), requiredIndex := if IndexHeld(w, sid) then w.moves[sid].requiredIndex else 0)
  }

  ghost function IndexNoted(w: World, sid: Id): Inflight
    requires Due(w, sid) && LeaderHeard(w, sid)
  {
    w.moves[sid].(requiredEpoch := EpochAwaited(w, sid), requiredIndex := IndexAwaited(w, sid),
                  lastProgress := if IndexHeld(w, sid) then w.moves[sid].lastProgress else w.now)
  }

  lemma TargetLags(rf: RepFactor, w: World, sid: Id, ok: bool)
    requires InTimeNow(w, sid) && w.moves[sid].phase == WaitTarget && TargetUp(w, sid) && TargetJoined(w, sid) && !TargetReady(w, sid)
    ensures var w' := AdvanceMove(rf, w, sid, ok);
      && OnlyMove(w, w', sid)
      && Again(if LeaderHeard(w, sid) then IndexNoted(w, sid) else EpochNoted(w, sid), w'.moves[sid], w.now)
  {
    RetryIsAgain(if LeaderHeard(w, sid) then IndexNoted(w, sid) else EpochNoted(w, sid), w.now);
  }

  /** What is recorded when a removal is proposed: that the source led the shard, and the membership before it. */
  ghost function Noted(w: World, sid: Id): Inflight
    requires Due(w, sid)
  {
    var m, sh := w.moves[sid], ShardAt(w, sid);
    var leads := m.requiredAckEpoch == 0 && sh.leader == m.move.source;
    m.(waitAck := m.waitAck || leads, requiredAckEpoch := if leads then Inc64(sh.epoch) else m.requiredAckEpoch,
       removeConfigChange := if m.removeConfigChange == 0 && MembersKnown(w, sid) then w.membership[sid].configChange else m.removeConfigChange)
  }

  /** A move past its wait proposes to remove its source for as long as the source is a replica. */
  lemma RemoveSourceStep(rf: RepFactor, w: World, sid: Id, ok: bool)
    requires InTimeNow(w, sid) && w.moves[sid].phase == RemoveSource
    ensures var w' := AdvanceMove(rf, w, sid, ok); var m := w.moves[sid]; var source := m.move.source;
      if source !in ShardAt(w, sid).replicas then OnlyMove(w, w', sid) && Begins(m, w'.moves[sid], WaitRemoval, w.now)
      else if ok then Commanded(rf, w, w', sid, RemoveShardReplica(sid, source)) && Begins(Noted(w, sid), w'.moves[sid], WaitRemoval, w.now)
      else OnlyMove(w, w', sid) && Again(Noted(w, sid), w'.moves[sid], w.now)
  {
    RetryIsAgain(Noted(w, sid), w.now);
  }

  /** The source is no longer a raft member, by a report later than the change that removed it; a leadership it held was
      handed over, at the epoch asked for, by an acknowledgement at most five minutes old; and it is not the leader. */
  ghost predicate SourceGone(w: World, sid: Id)
    requires Due(w, sid)
  {
    var m := w.moves[sid]; var source := m.move.source;
    && MembersKnown(w, sid) && source !in w.membership[sid].nodes
    && (m.removeConfigChange == 0 || w.membership[sid].configChange > m.removeConfigChange)
    && (m.waitAck ==>
          && (sid, source) in w.acks && w.now - w.acks[(sid, source)].at <= 300 * 1_000_000_000
          && w.acks[(sid, source)].epoch >= m.requiredAckEpoch)
    && ShardAt(w, sid).leader != source
  }

  /** A move that waits for the removal is complete if and only if its source is gone. */
  lemma WaitRemovalStep(rf: RepFactor, w: World, sid: Id, ok: bool)
    requires InTimeNow(w, sid) && w.moves[sid].phase == WaitRemoval
    ensures var w' := AdvanceMove(rf, w, sid, ok);
      if SourceGone(w, sid) then Dropped(w, w', sid) else OnlyMove(w, w', sid) && Again(w.moves[sid], w'.moves[sid], w.now)
  {
    RetryIsAgain(w.moves[sid], w.now);
  }

  /** The target can be taken back: the move added it, both its workers are replicas, and there are replicas to spare. */
  ghost predicate CanTakeBack(rf: RepFactor, w: World, sid: Id)
    requires Due(w, sid)
  {
    var m, replicas := w.moves[sid], ShardAt(w, sid).replicas;
    m.addedByMove && m.move.source in replicas && m.move.target in replicas && |replicas| > rf
  }

  /** Past its half hour a move is given up, whatever its phase; where its target can be taken back, once that is proposed. */
  lemma OverdueStep(rf: RepFactor, w: World, sid: Id, ok: bool)
    requires Due(w, sid) && !InTimeNow(w, sid)
    ensures var w' := AdvanceMove(rf, w, sid, ok); var m := w.moves[sid];
      if !CanTakeBack(rf, w, sid) then Dropped(w, w', sid)
      else if ok then
        && w' == w.(run := w'.run, moves := w.moves - {sid})
        && w'.run == w.run + [Apply(rf, Current(w), RemoveShardReplica(sid, m.move.target), EnvAt(w.now)).state]
      else OnlyMove(w, w', sid) && Again(m, w'.moves[sid], w.now)
  {
    RetryIsAgain(w.moves[sid], w.now);
  }

  // ---------------------------------------------------------------- a ready move is carried out

  /** The shard's source can be removed: it is a replica, one of more than `rf`, and the log has room. */
  ghost predicate CanRemove(rf: RepFactor, w: World, sid: Id)
    requires Due(w, sid)
  {
    && Inv(Current(w)) && Headroom(Current(w), RemoveShardReplica(sid, w.moves[sid].move.source))
    && w.moves[sid].move.source in ShardAt(w, sid).replicas && |ShardAt(w, sid).replicas| > rf
  }

  /** From `w` to `w'` the shard lost one replica, on the source of its move, and kept the others in their order. */
  ghost predicate SourceRemoved(w: World, w': World, sid: Id, before: seq<Id>, after: seq<Id>)
    requires Due(w, sid)
  {
    && sid in w'.moves && w'.moves[sid].phase == WaitRemoval && |w'.run| == |w.run| + 1 && Exists(Current(w'), sid)
    && ShardAt(w, sid).replicas == before + [w.moves[sid].move.source] + after && ShardAt(w', sid).replicas == before + after
  }

  lemma RemovalApplied(rf: RepFactor, w: World, sid: Id) returns (before: seq<Id>, after: seq<Id>)
    requires Due(w, sid) && CanRemove(rf, w, sid)
    ensures var t := Apply(rf, Current(w), RemoveShardReplica(sid, w.moves[sid].move.source), EnvAt(w.now)).state;
      && Exists(t, sid) && ShardAt(w, sid).replicas == before + [w.moves[sid].move.source] + after
      && ShardOf(t, sid).replicas == before + after
  {
    var source := w.moves[sid].move.source;
    var o := Apply(rf, Current(w), RemoveShardReplica(sid, source), EnvAt(w.now));
    before, after := CommandEffects.RemoveEffect(rf, Current(w), sid, source, EnvAt(w.now), o.state, o.reply);
  }

  lemma RemovalTaken(rf: RepFactor, w: World, sid: Id) returns (before: seq<Id>, after: seq<Id>)
    requires InTimeNow(w, sid) && w.moves[sid].phase == RemoveSource && CanRemove(rf, w, sid)
    ensures SourceRemoved(w, AdvanceMove(rf, w, sid, true), sid, before, after)
  {
    RemoveSourceStep(rf, w, sid, true);
    before, after := RemovalApplied(rf, w, sid);
  }

  /** Looked at twice with its target ready, the second time with a proposal raft takes, a move takes its source off the
      shard, leaves the other replicas, and waits to see the source gone. */
  lemma ReadyMovesRemove(rf: RepFactor, w: World, sid: Id, ok: bool) returns (w1: World, before: seq<Id>, after: seq<Id>)
    requires InTimeNow(w, sid) && w.moves[sid].phase == WaitTarget && TargetReady(w, sid) && CanRemove(rf, w, sid)
    ensures w1 == AdvanceMove(rf, w, sid, ok) && sid in w1.moves && |w1.run| > 0
    ensures SourceRemoved(w, AdvanceMove(rf, w1, sid, true), sid, before, after)
  {
    WaitTargetStep(rf, w, sid, ok);
    w1 := AdvanceMove(rf, w, sid, ok);
    before, after := RemovalTaken(rf, w1, sid);
  }

  // ---------------------------------------------------------------- starting a move, taking a report

  /** A move that starts adds its target unless that is a replica already, and then waits for it: from now on, at the
      epoch the shard has once it was added, and for a membership later than the one known. */
  lemma StartStep(rf: RepFactor, cap: int, w: World, move: Move, ok: bool)
    requires MayStart(cap, w, move)
    ensures var w' := StartMove(rf, w, move, ok); var sid := move.shard; var held := move.target in ShardAt(w, sid).replicas;
      && w' == w.(moves := w'.moves, run := w'.run)
      && w'.run == (if held || !ok then w.run else w.run + [Apply(rf, Current(w), AddShardReplica(sid, move.target), EnvAt(w.now)).state])
      && if !held && !ok then w'.moves == w.moves
         else
           && sid in w'.moves && w'.moves == w.moves[sid := w'.moves[sid]]
           && var m := w'.moves[sid];
              && m.move == move && m.phase == WaitTarget && (m.addedByMove <==> !held)
              && m.startedAt == m.lastProgress == m.nextAttempt == w.now && m.attempts == 0
              && m.requiredIndex == 0 && m.removeConfigChange == 0 && m.requiredAckEpoch == 0 && !m.waitAck
              && m.addConfigChange == (if MembersKnown(w, sid) then w.membership[sid].configChange else 0)
              && (Exists(Current(w'), sid) ==> m.requiredEpoch == ShardAt(w', sid).epoch)
  {
  }

  /** A report of progress replaces the worker's last one if the worker is a replica of the shard, and is ignored if not. */
  lemma ProgressStep(rf: RepFactor, w: World, x: Id, sid: Id, applied: nat, epoch: nat)
    requires |w.run| > 0
    ensures var w' := After(rf, w, ReportProgress(x, sid, applied, epoch));
      if Exists(Current(w), sid) && x in ShardAt(w, sid).replicas then
        && w' == w.(progress := w'.progress, reports := w'.reports) && (sid, x) in w'.progress
        && w'.progress == w.progress[(sid, x) := w'.progress[(sid, x)]]
        && w'.progress[(sid, x)].applied == applied && w'.progress[(sid, x)].epoch == epoch && w'.progress[(sid, x)].at == w.now
      else w' == w
  {
  }

  /** A report of the shard's members is taken from a replica that says it is the leader, and from nobody else. */
  lemma MembershipStep(rf: RepFactor, w: World, x: Id, sid: Id, claimed: Id, nodes: set<Id>, change: nat)
    requires |w.run| > 0
    ensures var w' := After(rf, w, ReportMembership(x, sid, claimed, nodes, change));
      if claimed == x && Exists(Current(w), sid) && x in ShardAt(w, sid).replicas then
        && w' == w.(membership := w'.membership) && sid in w'.membership && w'.membership == w.membership[sid := w'.membership[sid]]
        && w'.membership[sid].nodes == nodes && w'.membership[sid].configChange == change && w'.membership[sid].at == w.now
      else w' == w
  {
  }

  /** An acknowledgement is taken from the worker it names as its source. */
  lemma AckStep(rf: RepFactor, w: World, x: Id, sid: Id, source: Id, target: Id, epoch: nat)
    requires |w.run| > 0
    ensures var w' := After(rf, w, ReportAck(x, sid, source, target, epoch));
      if source == x then
        && w' == w.(acks := w'.acks) && (sid, x) in w'.acks && w'.acks == w.acks[(sid, x) := w'.acks[(sid, x)]]
        && w'.acks[(sid, x)].to == target && w'.acks[(sid, x)].epoch == epoch && w'.acks[(sid, x)].at == w.now
      else w' == w
  {
  }
}
