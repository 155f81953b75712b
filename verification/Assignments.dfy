/** The shard assignments a heartbeat answers with, and when a replica is told to bootstrap its shard. */
module Assignments {
  import opened Prelude
  import opened FsmTypes
  import opened FsmModel
  import opened FsmInvariant
  import opened History
  import opened ShardLives
  import Placement

  datatype Assignment = Assignment(shard: Shard, initialMembers: map<Id, string>, bootstrap: bool)

  function Role(ws: map<Id, Worker>, w: Id): string
  {
    if w in ws then ws[w].role else ""
  }

  /** A registered worker whose role it is only to search. */
  ghost predicate SearchOnly(ws: map<Id, Worker>, w: Id)
  {
    w in ws && ws[w].role == "search_only"
  }

  predicate Assigned(ws: map<Id, Worker>, w: Id, sh: Shard)
  {
    Role(ws, w) == "search_only" || w in sh.replicas
  }

  function Members(ws: map<Id, Worker>, replicas: seq<Id>): map<Id, string>
  {
    map r | r in replicas && r in ws :: ws[r].raftAddr
  }

  function AssignmentFor(ws: map<Id, Worker>, w: Id, sh: Shard): Assignment
  {
    if Role(ws, w) == "search_only" then Assignment(sh, map[], false)
    else Assignment(sh, Members(ws, sh.replicas), !sh.bootstrapped && w in sh.bootstrapMembers)
  }

  /** The address loop of one assignment; it would warn on a replica whose worker is unknown. */
  method BuildMembers(ws: map<Id, Worker>, replicas: seq<Id>) returns (members: map<Id, string>, warned: bool)
    ensures members == Members(ws, replicas)
    ensures warned <==> !Placement.Registered(ws, replicas)
  {
    members, warned := map[], false;
    for k := 0 to |replicas|
      invariant members == Members(ws, replicas[..k])
      invariant warned <==> !Placement.Registered(ws, replicas[..k])
    {
      assert replicas[..k + 1] == replicas[..k] + [replicas[k]];
      if replicas[k] in ws {
        members := members[replicas[k] := ws[replicas[k]].raftAddr];
      } else {
        warned := true;
      }
    }
    assert replicas[..|replicas|] == replicas;
  }

  /** The raft address of each of these workers, and of nobody else. */
  ghost predicate AddressesOf(ws: map<Id, Worker>, replicas: seq<Id>, members: map<Id, string>)
  {
    && members.Keys == ToSet(replicas) <= ws.Keys
    && forall r :: r in members ==> members[r] == ws[r].raftAddr
  }

  // ---------------------------------------------------------------- bootstrap orders

  /** The worker is one of those the shard was born with, and the shard has had no leader since. */
  ghost predicate BootstrapDue(run: seq<State>, sid: Id, w: Id)
  {
    |run| > 0 && exists b: nat :: DueSince(run, b, sid, w)
  }

  ghost predicate DueSince(run: seq<State>, b: nat, sid: Id, w: Id)
    requires |run| > 0
  {
    BornAt(run, b, sid) && w in ShardOf(run[b], sid).replicas && NeverLed(run, b, |run| - 1, sid)
  }

  /** A shard of the last state of a run is to be bootstrapped by a worker exactly if that worker was a replica at its
      birth, whatever has become of its replicas since, and no leader was ever recorded. */
  lemma BootstrapIff(rf: RepFactor, run: seq<State>, sid: Id, w: Id)
    requires Run(rf, run) && Exists(run[|run| - 1], sid) && !SearchOnly(run[|run| - 1].workers, w)
    ensures AssignmentFor(run[|run| - 1].workers, w, ShardOf(run[|run| - 1], sid)).bootstrap <==> BootstrapDue(run, sid, w)
  {
    var n := |run| - 1;
    var b := Birth(rf, run, n, sid);
    BootstrappedIffLed(rf, run, b, n, sid);
    if b': nat :| DueSince(run, b', sid, w) {
      BootstrappedIffLed(rf, run, b', n, sid);
    }
    assert DueSince(run, b, sid, w) <==> w in ShardOf(run[b], sid).replicas && NeverLed(run, b, n, sid);
  }

  /** Bootstrap orders of the assignments given in state `s`, for every run that leads there. */
  ghost predicate OrdersDue(s: State, out: map<Id, Assignment>, w: Id)
  {
    forall rf: RepFactor, run: seq<State> :: Run(rf, run) && run[|run| - 1] == s ==>
      forall sid :: sid in out ==> (out[sid].bootstrap <==> BootstrapDue(run, sid, w))
  }

  lemma OrdersAreDue(s: State, c: Collection, out: map<Id, Assignment>, w: Id)
    requires Inv(s) && c.name in s.collections && s.collections[c.name] == c && !SearchOnly(s.workers, w)
    requires forall sid :: sid in out ==> sid in c.shards && out[sid] == AssignmentFor(s.workers, w, c.shards[sid])
    ensures OrdersDue(s, out, w)
  {
    forall rf: RepFactor, run: seq<State>, sid | Run(rf, run) && run[|run| - 1] == s && sid in out
      ensures out[sid].bootstrap <==> BootstrapDue(run, sid, w)
    {
      HomeIs(s, c.name, sid);
      BootstrapIff(rf, run, sid, w);
    }
  }

  lemma AddressesGiven(s: State, c: Collection, out: map<Id, Assignment>, w: Id)
    requires Inv(s) && c.name in s.collections && s.collections[c.name] == c && !SearchOnly(s.workers, w)
    requires forall sid :: sid in out ==> sid in c.shards && out[sid] == AssignmentFor(s.workers, w, c.shards[sid])
    ensures forall sid :: sid in out ==> AddressesOf(s.workers, c.shards[sid].replicas, out[sid].initialMembers)
  {
    forall sid | sid in out
      ensures AddressesOf(s.workers, c.shards[sid].replicas, out[sid].initialMembers)
    {
      assert Hosts(s, c.name, sid);
    }
  }

  // ---------------------------------------------------------------- what a heartbeat answers

  /** One assignment; a search-only worker is given the shard alone. */
  method Assign(ws: map<Id, Worker>, w: Id, sh: Shard) returns (a: Assignment, missing: bool)
    ensures a == AssignmentFor(ws, w, sh)
    ensures missing <==> Role(ws, w) != "search_only" && !Placement.Registered(ws, sh.replicas)
  {
    if Role(ws, w) == "search_only" {
      return Assignment(sh, map[], false), false;
    }
    var members;
    members, missing := BuildMembers(ws, sh.replicas);
    a := Assignment(sh, members, !sh.bootstrapped && w in sh.bootstrapMembers);
  }

  /** The assignments of all shards but those still to be looked at. */
  ghost predicate Given(ws: map<Id, Worker>, c: Collection, w: Id, ids: set<Id>, out: map<Id, Assignment>)
  {
    && (forall sid :: sid in out <==> sid in c.shards && sid !in ids && Assigned(ws, w, c.shards[sid]))
    && forall sid :: sid in out ==> out[sid] == AssignmentFor(ws, w, c.shards[sid])
  }

  lemma GivenNext(ws: map<Id, Worker>, c: Collection, w: Id, ids: set<Id>, out: map<Id, Assignment>, sid: Id)
    requires Given(ws, c, w, ids, out) && sid in ids && ids <= c.shards.Keys
    ensures var sh := c.shards[sid];
      Given(ws, c, w, ids - {sid}, if Assigned(ws, w, sh) then out[sid := AssignmentFor(ws, w, sh)] else out)
  {
  }

  lemma AllGiven(s: State, c: Collection, out: map<Id, Assignment>, w: Id)
    requires Inv(s) && c.name in s.collections && s.collections[c.name] == c && Given(s.workers, c, w, {}, out)
    ensures out.Keys == set sid | sid in c.shards && Assigned(s.workers, w, c.shards[sid])
    ensures forall sid :: sid in out ==> out[sid].shard == c.shards[sid]
    ensures SearchOnly(s.workers, w) ==>
      out.Keys == c.shards.Keys && forall sid :: sid in out ==> out[sid].initialMembers == map[] && !out[sid].bootstrap
    ensures !SearchOnly(s.workers, w) ==>
      && (forall sid :: sid in out <==> sid in c.shards && w in c.shards[sid].replicas)
      && (forall sid :: sid in out ==> AddressesOf(s.workers, c.shards[sid].replicas, out[sid].initialMembers))
      && OrdersDue(s, out, w)
  {
    if !SearchOnly(s.workers, w) {
      AddressesGiven(s, c, out, w);
      OrdersAreDue(s, c, out, w);
    }
  }

  /** The assignments of one collection: one for each shard the worker serves, none for the others,
      and never a replica without an address. */
  method BuildAssignments(ghost s: State, ws: map<Id, Worker>, c: Collection, w: Id) returns (out: map<Id, Assignment>, warned: bool)
    requires Inv(s) && s.workers == ws && c.name in s.collections && s.collections[c.name] == c
    ensures out.Keys == set sid | sid in c.shards && Assigned(ws, w, c.shards[sid])
    ensures forall sid :: sid in out ==> out[sid] == AssignmentFor(ws, w, c.shards[sid])
    ensures forall sid :: sid in out ==> out[sid].shard == c.shards[sid]
    ensures SearchOnly(ws, w) ==>
      out.Keys == c.shards.Keys && forall sid :: sid in out ==> out[sid].initialMembers == map[] && !out[sid].bootstrap
    ensures !SearchOnly(ws, w) ==>
      && (forall sid :: sid in out <==> sid in c.shards && w in c.shards[sid].replicas)
      && (forall sid :: sid in out ==> AddressesOf(ws, c.shards[sid].replicas, out[sid].initialMembers))
      && OrdersDue(s, out, w)
    ensures !warned
  {
    out, warned := map[], false;
    var ids := c.shards.Keys;
    while ids != {}
      invariant ids <= c.shards.Keys && !warned && Given(ws, c, w, ids, out)
      decreases |ids|
    {
      var sid :| sid in ids;
      var sh := c.shards[sid];
      assert Hosts(s, c.name, sid);
      GivenNext(ws, c, w, ids, out, sid);
      if Assigned(ws, w, sh) {
        var a, missing := Assign(ws, w, sh);
        warned := warned || missing;
        out := out[sid := a];
      }
      ids := ids - {sid};
    }
    AllGiven(s, c, out, w);
  }

  // ---------------------------------------------------------------- over runs

  /** A bootstrap order goes only to a replica the shard was created with, and only while no leader has ever been
      recorded for it: not now, and not in any earlier state of the run. */
  lemma BootstrapDiscipline(rf: RepFactor, run: seq<State>, i: nat, sid: Id, w: Id) returns (b: nat)
    requires Run(rf, run) && i < |run| && Exists(run[i], sid)
    requires AssignmentFor(run[i].workers, w, ShardOf(run[i], sid)).bootstrap
    ensures b <= i && Exists(run[b], sid) && (b == 0 || !Exists(run[b - 1], sid))
    ensures w in ShardOf(run[b], sid).replicas && ShardOf(run[b], sid).epoch == 1
    ensures forall j: nat :: j <= i && Exists(run[j], sid) ==> ShardOf(run[j], sid).leader == 0
  {
    b := Birth(rf, run, i, sid);
    RunFollows(rf, run, b, i);
    forall j: nat | j <= i && Exists(run[j], sid)
      ensures ShardOf(run[j], sid).leader == 0
    {
      RunFollows(rf, run, j, i);
    }
  }

  /** Once a leader has been recorded, the shard stays bootstrapped and is never ordered to bootstrap again. */
  lemma NoBootstrapAfterLeader(rf: RepFactor, run: seq<State>, i: nat, j: nat, sid: Id, w: Id)
    requires Run(rf, run) && i <= j < |run| && Exists(run[i], sid) && Exists(run[j], sid)
    requires ShardOf(run[i], sid).leader > 0
    ensures ShardOf(run[j], sid).bootstrapped
    ensures !AssignmentFor(run[j].workers, w, ShardOf(run[j], sid)).bootstrap
  {
    RunFollows(rf, run, i, j);
  }

  lemma ReplicasRegistered(rf: RepFactor, run: seq<State>, i: nat, sid: Id)
    requires Run(rf, run) && i < |run| && Exists(run[i], sid)
    ensures Placement.Registered(run[i].workers, ShardOf(run[i], sid).replicas)
  {
    RunInv(rf, run, i);
    assert Hosts(run[i], Home(run[i], sid), sid);
  }

  /** Equal replica lists at two moments of a run have equal members, with an address for every replica. */
  lemma MembersAgree(rf: RepFactor, s: State, t: State, replicas: seq<Id>)
    requires Later(rf, s, t) && Placement.Registered(s.workers, replicas) && Placement.Registered(t.workers, replicas)
    ensures Members(s.workers, replicas) == Members(t.workers, replicas)
    ensures Members(s.workers, replicas).Keys == ToSet(replicas)
  {
  }

  /** Two assignments of the same shard at the same epoch, from any two moments of a run and to any two workers that
      are not search-only, carry identical initial members, with an address for every replica. */
  lemma SameEpochSameMembers(rf: RepFactor, run: seq<State>, i: nat, j: nat, sid: Id, v: Id, w: Id)
    requires Run(rf, run) && i < |run| && j < |run| && Exists(run[i], sid) && Exists(run[j], sid)
    requires ShardOf(run[i], sid).epoch == ShardOf(run[j], sid).epoch
    requires !SearchOnly(run[i].workers, v) && !SearchOnly(run[j].workers, w)
    ensures AssignmentFor(run[i].workers, v, ShardOf(run[i], sid)).initialMembers ==
            AssignmentFor(run[j].workers, w, ShardOf(run[j], sid)).initialMembers
    ensures AssignmentFor(run[i].workers, v, ShardOf(run[i], sid)).initialMembers.Keys == ToSet(ShardOf(run[i], sid).replicas)
  {
    EpochNamesOneConfiguration(rf, run, i, j, sid);
    var replicas := ShardOf(run[i], sid).replicas;
    ReplicasRegistered(rf, run, i, sid);
    ReplicasRegistered(rf, run, j, sid);
    if i <= j {
      RunFollows(rf, run, i, j);
      MembersAgree(rf, run[i], run[j], replicas);
    } else {
      RunFollows(rf, run, j, i);
      MembersAgree(rf, run[j], run[i], replicas);
    }
  }
}
