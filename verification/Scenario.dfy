/** Runs of the driver's log built command by command, for showing where a property fails. */
module Scenario {
  import opened Prelude
  import opened FsmTypes
  import opened FsmModel
  import opened FsmInvariant
  import opened History
  import KeySpace
  import Placement

  function Member(id: Id, addr: string, st: WorkerState): Worker
  {
    Worker(id, addr, addr, 0, st, "write", [], 0.0, "", "", "")
  }

  function WithWorkers(ws: map<Id, Worker>, next: nat): State
  {
    Initial.(workers := ws, nextWorker := next)
  }

  /** Two workers register and send their first heartbeats, all at time zero. */
  function Setup(): seq<State>
  {
    [Initial,
     WithWorkers(map[1 := Member(1, "a", Joining)], 2),
     WithWorkers(map[1 := Member(1, "a", Joining), 2 := Member(2, "b", Joining)], 3),
     WithWorkers(map[1 := Member(1, "a", Ready), 2 := Member(2, "b", Joining)], 3),
     WithWorkers(map[1 := Member(1, "a", Ready), 2 := Member(2, "b", Ready)], 3)]
  }

  function Register(addr: string): Command
  {
    RegisterWorker(addr, addr, "", "", "", "")
  }

  const Zero: Env := Env(0, 0, [], KeySpace.Float(0, 1), 0)

  /** Nothing exists yet, so the counters have all the room they need. */
  lemma RoomWithoutShards(s: State, cmd: Command)
    requires s.collections == map[] && s.assignmentsEpoch == 1 && s.nextWorker <= 3 && s.nextReranker == 1 && !cmd.CreateCollection?
    ensures Headroom(s, cmd)
  {
  }

  lemma NextBy(rf: RepFactor, s: State, cmd: Command, env: Env, t: State)
    requires Step(rf, s, cmd, env, t)
    ensures Next(rf, s, t)
  {
  }

  lemma Registers(rf: RepFactor, s: State, addr: string)
    requires (s == Setup()[0] && addr == "a") || (s == Setup()[1] && addr == "b")
    ensures Next(rf, s, s.(workers := s.workers[s.nextWorker := Member(s.nextWorker, addr, Joining)], nextWorker := s.nextWorker + 1))
  {
    RoomWithoutShards(s, Register(addr));
    assert forall id: Id :: !WorkerAt(s, id, addr, addr);
    NextBy(rf, s, Register(addr), Zero, s.(workers := s.workers[s.nextWorker := Member(s.nextWorker, addr, Joining)], nextWorker := s.nextWorker + 1));
  }

  lemma Heartbeats(rf: RepFactor, s: State, id: Id, addr: string)
    requires s.collections == map[] && s.assignmentsEpoch == 1 && s.nextWorker <= 3 && s.nextReranker == 1
    requires id in s.workers && s.workers[id] == Member(id, addr, Joining)
    ensures Next(rf, s, s.(workers := s.workers[id := Member(id, addr, Ready)]))
  {
    var cmd := UpdateWorkerHeartbeat(id, 0.0, []);
    RoomWithoutShards(s, cmd);
    NextBy(rf, s, cmd, Zero, s.(workers := s.workers[id := Member(id, addr, Ready)]));
  }

  lemma SetupRuns(rf: RepFactor)
    ensures Run(rf, Setup())
  {
    var run := Setup();
    Registers(rf, run[0], "a");
    Registers(rf, run[1], "b");
    Heartbeats(rf, run[2], 1, "a");
    Heartbeats(rf, run[3], 2, "b");
    assert run[0].workers[1 := Member(1, "a", Joining)] == run[1].workers;
    assert run[1].workers[2 := Member(2, "b", Joining)] == run[2].workers;
    assert run[2].workers[1 := Member(1, "a", Ready)] == run[3].workers;
    assert run[3].workers[2 := Member(2, "b", Ready)] == run[4].workers;
    forall i: nat
      ensures StepAt(rf, run, i)
    {
      if i + 1 < |run| { assert i == 0 || i == 1 || i == 2 || i == 3; }
    }
  }

  // ---------------------------------------------------------------- collections of one shard

  const Sorted: Env := Env(0, 0, [1, 2], KeySpace.Float(TWO64, 1), 0)

  function Create(name: string): Command
  {
    CreateCollection(name, 1, "", 1)
  }

  /** The two workers of the set-up, and up to `n` collections whose shards are as they were created. */
  ghost predicate Young(s: State, n: nat)
  {
    && s.workers == Setup()[4].workers && s.nextWorker == 3 && s.nextReranker == 1
    && 1 <= s.nextShard <= n + 1 && s.assignmentsEpoch <= n + 1
    && forall x, id: Id :: Hosts(s, x, id) ==> s.collections[x].shards[id].epoch == 1
  }

  /** A collection whose only shard holds every key. */
  ghost predicate OneShard(rf: RepFactor, s: State, name: string, sid: Id)
  {
    && name in s.collections && sid > 0 && Exists(s, sid) && sid in s.collections[name].shards
    && (forall key: nat :: key < TWO64 ==> Holds(s.collections[name].shards, sid, key))
    && ShardOf(s, sid) == s.collections[name].shards[sid]
    && ShardOf(s, sid).collection == name && ShardOf(s, sid).epoch == 1
    && |ShardOf(s, sid).replicas| == Min(rf, 2) && Distinct(ShardOf(s, sid).replicas)
  }

  lemma CreateEnabled(s: State, name: string, n: nat)
    requires Young(s, n) && n < 8
    ensures ValidEnv(s, Create(name), Sorted) && Headroom(s, Create(name)) && EligibleWorkers(s.workers, 0) == {1, 2}
  {
  }

  lemma CreatedYoung(rf: RepFactor, s: State, name: string, n: nat)
    requires Inv(s) && Young(s, n) && n < 8 && name !in s.collections
    ensures var t := ApplyCreate(rf, s, Create(name), Sorted).state;
      && Inv(t) && Young(t, n + 1) && name in t.collections && t.collections == s.collections[name := t.collections[name]]
  {
    var t := ApplyCreate(rf, s, Create(name), Sorted).state;
    CreateEnabled(s, name, n);
    CreatedShards(rf, s, Create(name), Sorted);
    CreateInv(rf, s, Create(name), Sorted);
    forall x, id: Id | Hosts(t, x, id)
      ensures t.collections[x].shards[id].epoch == 1
    {
      if x != name { assert Hosts(s, x, id); }
    }
  }

  lemma OnlyShardHolds(shards: map<Id, Shard>, sid: Id)
    requires Partition(shards) && forall id: Id :: id in shards ==> id == sid
    ensures forall key: nat :: key < TWO64 ==> Holds(shards, sid, key)
  {
    forall key: nat | key < TWO64
      ensures Holds(shards, sid, key)
    {
      assert Covered(shards, key);
    }
  }

  lemma CreatedOneShard(rf: RepFactor, s: State, name: string, n: nat) returns (sid: Id)
    requires Inv(s) && Young(s, n) && n < 8 && name !in s.collections
    ensures OneShard(rf, ApplyCreate(rf, s, Create(name), Sorted).state, name, sid)
  {
    var t := ApplyCreate(rf, s, Create(name), Sorted).state;
    CreateEnabled(s, name, n);
    CreatedShards(rf, s, Create(name), Sorted);
    CreatedYoung(rf, s, name, n);
    sid := s.nextShard;
    OnlyShardHolds(t.collections[name].shards, sid);
    assert Holds(t.collections[name].shards, sid, 0);
    HomeIs(t, name, sid);
  }

  /** A run is carried on by the creation of one more collection. */
  lemma CreateRuns(rf: RepFactor, run: seq<State>, name: string, n: nat) returns (run': seq<State>, sid: Id)
    requires Run(rf, run) && Young(run[|run| - 1], n) && n < 8 && name !in run[|run| - 1].collections
    ensures Run(rf, run') && |run'| == |run| + 1 && run'[..|run|] == run && Young(run'[|run|], n + 1)
    ensures var s, t := run[|run| - 1], run'[|run|]; name in t.collections && t.collections == s.collections[name := t.collections[name]]
    ensures OneShard(rf, run'[|run|], name, sid)
  {
    var s := run[|run| - 1];
    var t := Apply(rf, s, Create(name), Sorted).state;
    RunInv(rf, run, |run| - 1);
    CreateEnabled(s, name, n);
    CreatedYoung(rf, s, name, n);
    sid := CreatedOneShard(rf, s, name, n);
    NextBy(rf, s, Create(name), Sorted, t);
    RunExtends(rf, run, t);
    run' := run + [t];
  }

  /** A run of six states ends with one collection, of the name given. */
  ghost predicate OneCollection(rf: RepFactor, run: seq<State>, name: string, sid: Id)
  {
    && Run(rf, run) && |run| == 6 && (forall i: nat :: i < 5 ==> run[i].collections == map[])
    && run[5].collections.Keys == {name} && Young(run[5], 1) && OneShard(rf, run[5], name, sid)
  }

  lemma CollectionRuns(rf: RepFactor, name: string) returns (run: seq<State>, sid: Id)
    ensures OneCollection(rf, run, name, sid)
  {
    SetupRuns(rf);
    run, sid := CreateRuns(rf, Setup(), name, 0);
    assert forall i: nat :: i < 5 ==> run[i] == run[..5][i];
  }

  /** A run of seven states ends with two collections, the second the one of shard `sid`. */
  ghost predicate TwoCollections(rf: RepFactor, run: seq<State>, first: string, second: string, sid: Id)
  {
    && Run(rf, run) && |run| == 7 && (forall i: nat :: i < 7 ==> run[i].collections.Keys <= {first, second})
    && run[6].collections.Keys == {first, second} && OneShard(rf, run[6], second, sid)
  }

  lemma TwoCollectionsRun(rf: RepFactor, first: string, second: string) returns (run: seq<State>, sid: Id)
    requires first != second
    ensures TwoCollections(rf, run, first, second, sid)
  {
    var one, other := CollectionRuns(rf, first);
    run, sid := CreateRuns(rf, one, second, 1);
    assert forall i: nat :: i < 6 ==> run[i] == run[..6][i];
  }

  // ---------------------------------------------------------------- a creation that places nothing

  /** Both heartbeats of the set-up lapse between the counting and the sorting of the eligible workers. */
  const Lapsed: Env := Env(WORKER_TIMEOUT - 1, WORKER_TIMEOUT, [], KeySpace.Float(TWO64, 1), 0)

  lemma LapsedEnabled(name: string)
    ensures ValidEnv(Setup()[4], Create(name), Lapsed) && Headroom(Setup()[4], Create(name))
    ensures EligibleWorkers(Setup()[4].workers, Lapsed.now) == {1, 2} && EligibleWorkers(Setup()[4].workers, Lapsed.later) == {}
  {
  }

  /** A run whose last command is an accepted creation of a collection none of whose shards has a replica. */
  lemma CreationMayPlaceNothing(rf: RepFactor, name: string) returns (run: seq<State>)
    ensures Run(rf, run) && |run| == 6 && ApplyCreate(rf, run[4], Create(name), Lapsed) == Outcome(run[5], Accepted(1))
    ensures name in run[5].collections && run[5].collections[name].shards != map[]
    ensures forall sid: Id :: Hosts(run[5], name, sid) ==> run[5].collections[name].shards[sid].replicas == []
  {
    var s, t := Setup()[4], Apply(rf, Setup()[4], Create(name), Lapsed).state;
    SetupRuns(rf);
    LapsedEnabled(name);
    NextBy(rf, s, Create(name), Lapsed, t);
    RunExtends(rf, Setup(), t);
    run := Setup() + [t];
    CreatedShards(rf, s, Create(name), Lapsed);
    assert Covered(t.collections[name].shards, 0);
  }

  // ---------------------------------------------------------------- moves that duplicate, moves that only bump

  ghost predicate HasRoom(s: State, sid: Id, room: nat)
  {
    Exists(s, sid) && |ShardOf(s, sid).replicas| > 0 && s.workers == Setup()[4].workers && RoomFor(s, room)
  }

  /** A run whose last state has room. */
  ghost predicate Roomy(rf: RepFactor, run: seq<State>, sid: Id, room: nat)
  {
    Run(rf, run) && HasRoom(run[|run| - 1], sid, room)
  }

  lemma MoveEffect(s: State, sid: Id, source: Id, target: Id, room: nat)
    requires Inv(s) && HasRoom(s, sid, room + 1) && source in ShardOf(s, sid).replicas && target in s.workers
    ensures var t := ApplyMove(s, sid, source, target).state;
      && HasRoom(t, sid, room)
      && var a := ShardOf(s, sid);
         ShardOf(t, sid) == a.(replicas := a.replicas[IndexOf(a.replicas, source) := target], epoch := a.epoch + 1)
  {
    var a := ShardOf(s, sid);
    var replicas := a.replicas[IndexOf(a.replicas, source) := target];
    assert Hosts(s, Home(s, sid), sid);
    ReconfigureView(s, sid, replicas, sid);
    ReconfigureRoom(s, sid, replicas, room);
  }

  /** Moving a replica carries a run on, whether or not the target already is a replica. */
  lemma MoveRuns(rf: RepFactor, run: seq<State>, sid: Id, source: Id, target: Id, room: nat) returns (run': seq<State>)
    requires Roomy(rf, run, sid, room + 1) && source in ShardOf(run[|run| - 1], sid).replicas && target in {1, 2}
    ensures run' == run + [ApplyMove(run[|run| - 1], sid, source, target).state] && Roomy(rf, run', sid, room)
    ensures var a, b := ShardOf(run[|run| - 1], sid), ShardOf(run'[|run|], sid);
      b == a.(replicas := a.replicas[IndexOf(a.replicas, source) := target], epoch := a.epoch + 1)
  {
    var s := run[|run| - 1];
    RunInv(rf, run, |run| - 1);
    MoveEffect(s, sid, source, target, room);
    MoveExtends(rf, run, sid, source, target);
    run' := run + [ApplyMove(s, sid, source, target).state];
  }

  lemma MoveExtends(rf: RepFactor, run: seq<State>, sid: Id, source: Id, target: Id)
    requires Roomy(rf, run, sid, 1)
    ensures Run(rf, run + [ApplyMove(run[|run| - 1], sid, source, target).state])
  {
    var s := run[|run| - 1];
    NextBy(rf, s, MoveShard(sid, source, target), Zero, ApplyMove(s, sid, source, target).state);
    RunExtends(rf, run, ApplyMove(s, sid, source, target).state);
  }

  /** In a run of any configuration with two replicas or more, an accepted move onto a replica leaves a worker listed
      twice. */
  lemma MoveMayDuplicate(rf: RepFactor) returns (run: seq<State>, sid: Id)
    requires rf >= 2
    ensures Run(rf, run) && |run| == 7 && Exists(run[5], sid) && Exists(run[6], sid)
    ensures var replicas := ShardOf(run[5], sid).replicas;
      && Distinct(replicas) && |replicas| == 2
      && ApplyMove(run[5], sid, replicas[0], replicas[1]).reply.Accepted?
      && run[6] == ApplyMove(run[5], sid, replicas[0], replicas[1]).state
      && ShardOf(run[6], sid).replicas == [replicas[1], replicas[1]]
  {
    var run6: seq<State>;
    run6, sid := CollectionRuns(rf, "c");
    var replicas := ShardOf(run6[5], sid).replicas;
    RunInv(rf, run6, 5);
    assert Hosts(run6[5], Home(run6[5], sid), sid);
    assert replicas[0] in run6[5].workers && replicas[1] in run6[5].workers;
    run := MoveRuns(rf, run6, sid, replicas[0], replicas[1], 0);
  }

  /** Moving a replica onto itself bumps the epoch and changes nothing else. */
  lemma BumpedOnce(rf: RepFactor, run: seq<State>, sid: Id, room: nat) returns (run': seq<State>)
    requires Roomy(rf, run, sid, room + 1)
    ensures |run'| == |run| + 1 && run'[..|run|] == run && Roomy(rf, run', sid, room)
    ensures var a := ShardOf(run[|run| - 1], sid); ShardOf(run'[|run|], sid) == a.(epoch := a.epoch + 1)
  {
    var last := run[|run| - 1];
    RunInv(rf, run, |run| - 1);
    assert Hosts(last, Home(last, sid), sid);
    var first := ShardOf(last, sid).replicas[0];
    assert first in last.workers;
    run' := MoveRuns(rf, run, sid, first, first, room);
  }

  lemma {:induction false} Bumped(rf: RepFactor, run: seq<State>, sid: Id, n: nat, room: nat) returns (run': seq<State>)
    requires Roomy(rf, run, sid, room + n)
    ensures |run'| == |run| + n && run'[..|run|] == run && Roomy(rf, run', sid, room)
    ensures var a := ShardOf(run[|run| - 1], sid); ShardOf(run'[|run'| - 1], sid) == a.(epoch := a.epoch + n)
    decreases n
  {
    if n == 0 {
      run' := run;
    } else {
      var head := Bumped(rf, run, sid, n - 1, room + 1);
      run' := BumpedOnce(rf, head, sid, room);
    }
  }

  /** A run of a collection can be carried on until a shard has any epoch. */
  lemma EpochReached(rf: RepFactor, e: nat, room: nat) returns (run: seq<State>, sid: Id)
    requires 1 <= e && e + room < TWO64 - 2
    ensures Roomy(rf, run, sid, room) && ShardOf(run[|run| - 1], sid).epoch == e
  {
    var start: seq<State>;
    start, sid := CollectionRuns(rf, "c");
    run := Bumped(rf, start, sid, e - 1, room);
  }

  /** The first replica moves to the other of the two workers. */
  lemma FirstReplicaMoves(rf: RepFactor, run: seq<State>, sid: Id, room: nat) returns (run': seq<State>)
    requires Roomy(rf, run, sid, room + 1)
    ensures |run'| == |run| + 1 && run'[..|run|] == run && Roomy(rf, run', sid, room)
    ensures ShardOf(run'[|run|], sid).epoch == ShardOf(run[|run| - 1], sid).epoch + 1
    ensures ShardOf(run'[|run|], sid).replicas != ShardOf(run[|run| - 1], sid).replicas
  {
    var s := run[|run| - 1];
    RunInv(rf, run, |run| - 1);
    assert Hosts(s, Home(s, sid), sid);
    var replicas := ShardOf(s, sid).replicas;
    assert replicas[0] in s.workers;
    var other := if replicas[0] == 1 then 2 else 1;
    run' := MoveRuns(rf, run, sid, replicas[0], other, room);
    assert IndexOf(replicas, replicas[0]) == 0;
  }

  /** For any two epochs, some run gives a shard different replicas at the one and at the other. */
  lemma TwoEpochs(rf: RepFactor, e: nat, f: nat) returns (run: seq<State>, sid: Id, i: nat, j: nat)
    requires 1 <= e < f < TWO64 - 8
    ensures Run(rf, run) && i < j < |run| && Exists(run[i], sid) && Exists(run[j], sid)
    ensures ShardOf(run[i], sid).epoch == e && ShardOf(run[j], sid).epoch == f
    ensures ShardOf(run[i], sid).replicas != ShardOf(run[j], sid).replicas
  {
    var before: seq<State>;
    before, sid := EpochReached(rf, e, f - e + 1);
    var after := FirstReplicaMoves(rf, before, sid, f - e);
    run := Bumped(rf, after, sid, f - e - 1, 1);
    i, j := |before| - 1, |run| - 1;
    assert run[i] == run[..|after|][i] == after[..|before|][i];
  }

  /** A run of seven states ends with a change of the replicas of the one shard of collection "c". */
  ghost predicate Reconfigured(rf: RepFactor, run: seq<State>, sid: Id)
  {
    && Run(rf, run) && |run| == 7 && OneShard(rf, run[5], "c", sid) && Exists(run[6], sid)
    && ShardOf(run[6], sid).epoch == 2 && ShardOf(run[6], sid).replicas != ShardOf(run[5], sid).replicas
  }

  lemma ReconfiguredRuns(rf: RepFactor) returns (run: seq<State>, sid: Id)
    ensures Reconfigured(rf, run, sid)
  {
    var start: seq<State>;
    start, sid := CollectionRuns(rf, "c");
    run := FirstReplicaMoves(rf, start, sid, 1);
    assert run[5] == run[..6][5];
  }
}
