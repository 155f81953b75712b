/** Upsert batches against the workers' epochs: a batch goes out under the newest epoch of its points' routes. */
module UpsertFencing {
  import opened Prelude
  import opened FsmTypes
  import opened FsmModel
  import opened FsmInvariant
  import opened History
  import opened Routing
  import opened Fencing
  import opened RouteNames
  import Scenario

  /** When a point's lookup read what it answered, and the cache it read should it have gone through one. */
  datatype Lookup = Lookup(at: nat, cache: Cache)

  /** An upsert: with a routing table, lookups are made for points without a usable row; with none, for every point. */
  datatype Upsert = Upsert(collection: string, table: seq<RouteShard>, turns: seq<Turn>, points: seq<Point>, lookups: seq<Lookup>)

  ghost predicate FromTable(m: System, hash: string -> nat, c: string, v: string, r: Resolved, table: seq<RouteShard>)
  {
    TableKnown(m.run, c, table) && Pick(table, hash(v)).Some?
    && Pick(table, hash(v)).value.shard == r.shard && Pick(table, hash(v)).value.epoch == r.epoch
  }

  ghost predicate FromDriver(m: System, hash: string -> nat, c: string, v: string, r: Resolved, i: nat)
  {
    && i < |m.run| && c in m.run[i].collections && Holds(m.run[i].collections[c].shards, r.shard, hash(v))
    && m.run[i].collections[c].shards[r.shard].epoch == r.epoch
  }

  /** A lookup that goes past the caches of resolved routes: to a routing table, or to a driver replica. */
  ghost predicate LookedUp(m: System, hash: string -> nat, c: string, v: string, r: Resolved)
  {
    || (exists table: seq<RouteShard> :: FromTable(m, hash, c, v, r, table))
    || (exists i: nat :: FromDriver(m, hash, c, v, r, i))
  }

  /** A lookup answered by a cache of resolved routes. */
  ghost predicate ReadFrom(m: System, cache: Cache, c: string, v: string, r: Resolved)
  {
    (cache, Joined(c, v)) in m.resolved && m.resolved[(cache, Joined(c, v))] == r
  }

  function AsRoute(t: Target): Resolved
  {
    Resolved(t.shard, t.epoch)
  }

  /** A lookup for a point without a usable row is forced past the caches; without a table it is not. */
  ghost predicate Answered(hash: string -> nat, trace: seq<System>, u: Upsert, k: nat)
    requires k < |u.turns| && k < |u.points| && k < |u.lookups|
  {
    u.turns[k].answer.Some? ==>
      && u.lookups[k].at < |trace|
      && var m, v, r := trace[u.lookups[k].at], u.points[k].id, AsRoute(u.turns[k].answer.value);
         LookedUp(m, hash, u.collection, v, r) || (u.table == [] && ReadFrom(m, u.lookups[k].cache, u.collection, v, r))
  }

  /** By system `n` the upsert has all its routes. */
  ghost predicate Prepared(rf: RepFactor, hash: string -> nat, trace: seq<System>, n: nat, u: Upsert)
  {
    && Reachable(rf, hash, trace) && n < |trace| && |u.turns| == |u.points| == |u.lookups|
    && (u.table == [] || TableKnown(trace[n].run, u.collection, u.table))
    && forall k :: 0 <= k < |u.points| ==> u.points[k].id != "" && u.lookups[k].at <= n && Answered(hash, trace, u, k)
  }

  ghost function Dests(hash: string -> nat, u: Upsert): (dests: seq<Option<Target>>)
    requires |u.turns| == |u.points|
    ensures |dests| == |u.points|
  {
    Destinations(u.table, hash, u.turns, u.points)
  }

  // ---------------------------------------------------------------- where the routes come from

  lemma LookedUpKnown(rf: RepFactor, hash: string -> nat, m: System, c: string, v: string, r: Resolved)
    requires Run(rf, m.run) && LookedUp(m, hash, c, v, r)
    ensures RouteKnown(m.run, c, hash(v), r)
  {
    if table: seq<RouteShard> :| FromTable(m, hash, c, v, r, table) {
      ResolvedFromTable(rf, m.run, c, table, hash(v));
    } else {
      var i: nat :| FromDriver(m, hash, c, v, r, i);
      ShardInCollection(rf, m.run, i, c, r.shard, hash(v));
    }
  }

  lemma FilledByOwn(run: seq<State>, hash: string -> nat, c: string, v: string, r: Resolved)
    requires RouteKnown(run, c, hash(v), r) && v != ""
    ensures Filled(run, hash, Joined(c, v), r)
  {
    assert FilledBy(run, hash, Joined(c, v), r, c, v);
  }

  /** A lookup's answer was resolved under the point's key, and, with a table, for the point itself. */
  lemma AnswerKnown(rf: RepFactor, hash: string -> nat, trace: seq<System>, n: nat, u: Upsert, k: nat)
    requires Prepared(rf, hash, trace, n, u) && k < |u.points| && u.turns[k].answer.Some?
    ensures var r := AsRoute(u.turns[k].answer.value);
      && Filled(trace[n].run, hash, Joined(u.collection, u.points[k].id), r)
      && (u.table != [] ==> RouteKnown(trace[n].run, u.collection, hash(u.points[k].id), r))
  {
    var at, v, r := u.lookups[k].at, u.points[k].id, AsRoute(u.turns[k].answer.value);
    assert Answered(hash, trace, u, k);
    ReachableGood(rf, hash, trace, at);
    if LookedUp(trace[at], hash, u.collection, v, r) {
      LookedUpKnown(rf, hash, trace[at], u.collection, v, r);
      TraceGrows(rf, hash, trace, at, n);
      RouteKnownGrows(trace[at].run, trace[n].run, u.collection, hash(v), r);
      FilledByOwn(trace[n].run, hash, u.collection, v, r);
    } else {
      ReadRouteFilled(rf, hash, trace, at, n, u.lookups[k].cache, Joined(u.collection, v));
    }
  }

  /** So was every destination. */
  lemma DestKnown(rf: RepFactor, hash: string -> nat, trace: seq<System>, n: nat, u: Upsert, k: nat)
    requires Prepared(rf, hash, trace, n, u) && k < |u.points| && Dests(hash, u)[k].Some?
    ensures var r := AsRoute(Dests(hash, u)[k].value);
      && Filled(trace[n].run, hash, Joined(u.collection, u.points[k].id), r)
      && (u.table != [] ==> RouteKnown(trace[n].run, u.collection, hash(u.points[k].id), r))
  {
    var v := u.points[k].id;
    ReachableGood(rf, hash, trace, n);
    if Dests(hash, u)[k] == u.turns[k].answer {
      AnswerKnown(rf, hash, trace, n, u, k);
    } else {
      ResolvedFromTable(rf, trace[n].run, u.collection, u.table, hash(v));
      FilledByOwn(trace[n].run, hash, u.collection, v, AsRoute(Dests(hash, u)[k].value));
    }
  }

  // ---------------------------------------------------------------- fencing

  /** Where a batch goes, and who checks it when. */
  datatype Delivery = Delivery(addr: string, shard: Id, worker: Id, nowMs: int)

  /** Point `k` is in the batch. */
  ghost predicate InBatch(hash: string -> nat, u: Upsert, d: Delivery, k: nat)
    requires |u.turns| == |u.points|
  {
    k < |u.points| && SentTo(Dests(hash, u)[k], d.addr, d.shard)
  }

  /** The worker admits the batch, for a real shard. */
  ghost predicate BatchAdmitted(hash: string -> nat, m: System, u: Upsert, d: Delivery)
    requires |u.turns| == |u.points|
  {
    && d.shard != 0 && Newest(Dests(hash, u), d.addr, d.shard).Some?
    && var b := Newest(Dests(hash, u), d.addr, d.shard).value;
       Admits(CurrentEpoch(m, d.worker, d.shard), d.shard, b.epoch, b.lease, d.nowMs)
  }

  ghost function EpochOf(hash: string -> nat, u: Upsert, d: Delivery, k: nat): nat
    requires |u.turns| == |u.points| && InBatch(hash, u, d, k)
  {
    Dests(hash, u)[k].value.epoch
  }

  /** If a worker admits a batch, each of its points was routed to a shard that has the range and collection it had when
      the route was current; the route is no newer than the worker's epoch, would have been admitted by itself if and only
      if it is as new as the batch's, and then names the worker's very configuration. */
  lemma AdmittedBatchesAreFenced(rf: RepFactor, hash: string -> nat, trace: seq<System>, n: nat, u: Upsert, d: Delivery, k: nat)
    returns (i: nat, j: nat)
    requires Prepared(rf, hash, trace, n, u) && InBatch(hash, u, d, k) && BatchAdmitted(hash, trace[n], u, d)
    ensures var run, e := trace[n].run, EpochOf(hash, u, d, k); var b := Newest(Dests(hash, u), d.addr, d.shard).value;
      && Was(run, i, d.shard, e) && Was(run, j, d.shard, b.epoch) && e <= b.epoch && SameRange(run, i, j, d.shard)
      && (Admits(CurrentEpoch(trace[n], d.worker, d.shard), d.shard, e, b.lease, d.nowMs) <==> e == b.epoch)
      && (e == b.epoch ==> SameConfiguration(run, i, j, d.shard))
  {
    ReachableGood(rf, hash, trace, n);
    DestKnown(rf, hash, trace, n, u, k);
    NewestIsNewest(Dests(hash, u), d.addr, d.shard);
    i, j := RouteAgainstWorker(rf, hash, trace[n], Joined(u.collection, u.points[k].id), AsRoute(Dests(hash, u)[k].value), d.worker);
  }

  // ---------------------------------------------------------------- whose shard a point goes to

  /** With a routing table, every point is sent to a shard of its collection that holds its hash. */
  lemma TablePointsAreRight(rf: RepFactor, hash: string -> nat, trace: seq<System>, n: nat, u: Upsert, d: Delivery, k: nat)
    requires Prepared(rf, hash, trace, n, u) && InBatch(hash, u, d, k) && u.table != []
    ensures Right(trace[n].run, hash, d.shard, u.collection, u.points[k].id)
  {
    ReachableGood(rf, hash, trace, n);
    DestKnown(rf, hash, trace, n, u, k);
    OwnRouteIsRight(rf, hash, trace[n].run, u.collection, u.points[k].id, AsRoute(Dests(hash, u)[k].value));
  }

  /** An upsert, with or without a table, in a system whose collections, its own among them, have these names. */
  ghost predicate UpsertAmong(rf: RepFactor, hash: string -> nat, names: set<string>, trace: seq<System>, n: nat, u: Upsert)
  {
    Prepared(rf, hash, trace, n, u) && Named(trace[n].run, names) && Present(trace[n].run, u.collection)
  }

  /** Among names that are apart, so is it without a table. */
  lemma ApartPointsAreRight(rf: RepFactor, hash: string -> nat, names: set<string>, trace: seq<System>, n: nat, u: Upsert, d: Delivery, k: nat)
    requires BarApart(names) && UpsertAmong(rf, hash, names, trace, n, u) && InBatch(hash, u, d, k)
    ensures Right(trace[n].run, hash, d.shard, u.collection, u.points[k].id)
  {
    ReachableGood(rf, hash, trace, n);
    DestKnown(rf, hash, trace, n, u, k);
    var r := AsRoute(Dests(hash, u)[k].value);
    assert u.collection in names;
    ApartIsOwn(rf, hash, trace[n].run, names, u.collection, u.points[k].id, r);
    OwnRouteIsRight(rf, hash, trace[n].run, u.collection, u.points[k].id, r);
  }

  /** An admitted batch among such names, and one of its points. */
  ghost predicate AdmittedPoint(rf: RepFactor, hash: string -> nat, names: set<string>, trace: seq<System>, n: nat, u: Upsert, d: Delivery, k: nat)
  {
    UpsertAmong(rf, hash, names, trace, n, u) && InBatch(hash, u, d, k) && BatchAdmitted(hash, trace[n], u, d)
  }

  ghost predicate PointRight(hash: string -> nat, trace: seq<System>, n: nat, u: Upsert, d: Delivery, k: nat)
    requires n < |trace| && k < |u.points|
  {
    Right(trace[n].run, hash, d.shard, u.collection, u.points[k].id)
  }

  ghost predicate AllPointsRight(rf: RepFactor, hash: string -> nat, names: set<string>)
  {
    forall trace: seq<System>, n: nat, u: Upsert, d: Delivery, k: nat ::
      AdmittedPoint(rf, hash, names, trace, n, u, d, k) ==> PointRight(hash, trace, n, u, d, k)
  }

  /** A point of collection `c`, upserted without a table, goes with an admitted batch to a shard of `d`. */
  lemma MisroutedPoint(rf: RepFactor, hash: string -> nat, c: string, d: string) returns (trace: seq<System>, u: Upsert, to: Delivery)
    requires c + "|" <= d && hash("x") < TWO64
    ensures u.collection == c && u.table == [] && |u.points| == 1 && u.points[0].id == Twin(c, d)
    ensures |trace| == 9 && Present(trace[8].run, d) && AdmittedPoint(rf, hash, {c, d}, trace, 8, u, to, 0)
    ensures !PointRight(hash, trace, 8, u, to, 0)
  {
    TwinShares(c, d);
    var sid;
    trace, sid := CollidingSystem(rf, hash, c, d);
    u := Upsert(c, [], [Turn(0, Some(Target("w", sid, 1, 0)))], [Point(Twin(c, d), [], map[])], [Lookup(8, Shared)]);
    to := Delivery("w", sid, 1, 0);
    assert ReadFrom(trace[8], Shared, c, Twin(c, d), Resolved(sid, 1));
    assert Answered(hash, trace, u, 0);
    assert Dests(hash, u) == [Some(Target("w", sid, 1, 0))];
  }

  /** Every point of an admitted batch goes to a shard of its collection that holds its hash, in every interleaving over
      collections with these names, if and only if no name followed by a bar begins another. */
  lemma UpsertsAreRightIff(rf: RepFactor, hash: string -> nat, names: set<string>)
    requires hash("x") < TWO64
    ensures AllPointsRight(rf, hash, names) <==> BarApart(names)
  {
    if BarApart(names) {
      forall trace: seq<System>, n: nat, u: Upsert, d: Delivery, k: nat | AdmittedPoint(rf, hash, names, trace, n, u, d, k)
        ensures PointRight(hash, trace, n, u, d, k)
      {
        ApartPointsAreRight(rf, hash, names, trace, n, u, d, k);
      }
    } else {
      var c, d :| c in names && d in names && c + "|" <= d;
      var trace, u, to := MisroutedPoint(rf, hash, c, d);
      assert AdmittedPoint(rf, hash, names, trace, 8, u, to, 0);
    }
  }

  /** With collections "a" and "a|b", a point "b|x" of "a" is admitted by a worker for a shard of "a|b". */
  lemma UpsertBarsCollide(rf: RepFactor, hash: string -> nat) returns (trace: seq<System>, u: Upsert, to: Delivery)
    requires hash("x") < TWO64
    ensures u.collection == "a" && u.table == [] && |u.points| == 1 && u.points[0].id == "b|x"
    ensures |trace| == 9 && Present(trace[8].run, "a|b") && AdmittedPoint(rf, hash, {"a", "a|b"}, trace, 8, u, to, 0)
    ensures !PointRight(hash, trace, 8, u, to, 0)
  {
    assert "a|b"[2..] + "|x" == "b|x";
    trace, u, to := MisroutedPoint(rf, hash, "a", "a|b");
  }

  // ---------------------------------------------------------------- points under older epochs

  /** In every run, the shard has the same replicas whenever it has these two epochs. */
  ghost predicate SameReplicasAt(rf: RepFactor, e: nat, f: nat)
  {
    forall run: seq<State>, i: nat, j: nat, sid: Id :: Run(rf, run) && Was(run, i, sid, e) && Was(run, j, sid, f) ==>
      ShardOf(run[i], sid).replicas == ShardOf(run[j], sid).replicas
  }

  /** Nothing short of equal epochs makes it certain that a route and a worker mean the same replicas. */
  lemma EpochsMustMatch(rf: RepFactor, e: nat, f: nat)
    requires 1 <= e < TWO64 - 8 && 1 <= f < TWO64 - 8
    ensures SameReplicasAt(rf, e, f) <==> e == f
  {
    if e == f {
      forall run: seq<State>, i: nat, j: nat, sid: Id | Run(rf, run) && Was(run, i, sid, e) && Was(run, j, sid, f)
        ensures ShardOf(run[i], sid).replicas == ShardOf(run[j], sid).replicas
      {
        EpochNamesOneConfiguration(rf, run, i, j, sid);
      }
    } else {
      var run, sid, i, j := Scenario.TwoEpochs(rf, if e < f then e else f, if e < f then f else e);
      assert e < f ==> Was(run, i, sid, e) && Was(run, j, sid, f);
      assert e > f ==> Was(run, j, sid, e) && Was(run, i, sid, f);
    }
  }

  /** The driver goes through a run whose last command changes the shard's replicas; the route of one id is read from a
      state before, that of another from the state after; then a worker is given the shard. */
  ghost function Aging(run: seq<State>, k: nat, sid: Id): System
    requires |run| == 7
  {
    if k < 7 then System(run[..k + 1], map[], map[], map[])
    else
      var older := map[(Shared, Joined("c", "x")) := Resolved(sid, 1)];
      if k == 7 then System(run, map[], older, map[])
      else
        var both := older[(Shared, Joined("c", "y")) := Resolved(sid, 2)];
        System(run, map[], both, if k == 8 then map[] else map[(1, sid) := 2])
  }

  ghost function AgingTrace(run: seq<State>, sid: Id): (trace: seq<System>)
    requires |run| == 7
    ensures |trace| == 10
  {
    seq(10, k requires 0 <= k < 10 => Aging(run, k, sid))
  }

  lemma AgingMoves(rf: RepFactor, hash: string -> nat, run: seq<State>, sid: Id)
    requires Scenario.Reconfigured(rf, run, sid) && hash("x") < TWO64 && hash("y") < TWO64
    ensures Moved(rf, hash, Aging(run, 6, sid), Aging(run, 7, sid)) && Moved(rf, hash, Aging(run, 7, sid), Aging(run, 8, sid))
    ensures Moved(rf, hash, Aging(run, 8, sid), Aging(run, 9, sid))
  {
    assert run[..7] == run;
    RunInv(rf, run, 6);
    RangeStays(rf, run, 5, 6, sid);
    assert Hosts(run[6], "c", sid) && Holds(run[5].collections["c"].shards, sid, hash("y"));
    HomeIs(run[6], "c", sid);
    assert MovesBy(rf, hash, Aging(run, 6, sid), FetchWorker(Shared, "c", "x", 5, sid), Aging(run, 7, sid));
    assert MovesBy(rf, hash, Aging(run, 7, sid), FetchWorker(Shared, "c", "y", 6, sid), Aging(run, 8, sid));
    assert MovesBy(rf, hash, Aging(run, 8, sid), Assign(1, sid, 6, false), Aging(run, 9, sid));
  }

  lemma AgingReachable(rf: RepFactor, hash: string -> nat, run: seq<State>, sid: Id)
    requires Scenario.Reconfigured(rf, run, sid) && hash("x") < TWO64 && hash("y") < TWO64
    ensures Reachable(rf, hash, AgingTrace(run, sid))
  {
    AgingMoves(rf, hash, run, sid);
    assert run[..1] == [Initial];
    forall k: nat
      ensures Moves(rf, hash, AgingTrace(run, sid), k)
    {
      if k < 6 {
        assert StepAt(rf, run, k);
        assert run[..k + 1] + [run[k + 1]] == run[..k + 2];
        assert MovesBy(rf, hash, Aging(run, k, sid), DriverStep(run[k + 1]), Aging(run, k + 1, sid));
      }
    }
  }

  /** A worker admits a batch with a point whose own route has an older epoch and other replicas, and which it would not
      have admitted by itself. */
  lemma OlderPointAdmitted(rf: RepFactor, hash: string -> nat) returns (trace: seq<System>, u: Upsert, d: Delivery)
    requires hash("x") < TWO64 && hash("y") < TWO64
    ensures |trace| == 10 && Prepared(rf, hash, trace, 9, u) && BatchAdmitted(hash, trace[9], u, d)
    ensures InBatch(hash, u, d, 0) && InBatch(hash, u, d, 1) && EpochOf(hash, u, d, 0) == 1 && EpochOf(hash, u, d, 1) == 2
    ensures !Admits(CurrentEpoch(trace[9], d.worker, d.shard), d.shard, EpochOf(hash, u, d, 0), 0, d.nowMs)
    ensures Was(trace[9].run, 5, d.shard, 1) && Was(trace[9].run, 6, d.shard, 2) && !SameConfiguration(trace[9].run, 5, 6, d.shard)
  {
    var run, sid := Scenario.ReconfiguredRuns(rf);
    trace := AgingTrace(run, sid);
    AgingReachable(rf, hash, run, sid);
    var first, second := Target("w", sid, 1, 0), Target("w", sid, 2, 0);
    u := Upsert("c", [], [Turn(0, Some(first)), Turn(0, Some(second))], [Point("x", [], map[]), Point("y", [], map[])],
                [Lookup(9, Shared), Lookup(9, Shared)]);
    d := Delivery("w", sid, 1, 0);
    assert Joined("c", "x")[2] != Joined("c", "y")[2];
    assert Answered(hash, trace, u, 0) && Answered(hash, trace, u, 1);
    assert Dests(hash, u) == [Some(first), Some(second)];
    NewestIsNewest(Dests(hash, u), "w", sid);
    assert Dests(hash, u)[..1] == [Some(first)];
  }
}
