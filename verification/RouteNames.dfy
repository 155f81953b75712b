/** Whose route a request gets: cached routes are kept under joined strings, which names with bars in them can share. */
module RouteNames {
  import opened Prelude
  import opened FsmTypes
  import opened FsmModel
  import opened FsmInvariant
  import opened History
  import opened Routing
  import opened Fencing
  import Scenario

  /** Wherever the shard exists, it is in this collection and holds the hash of this vector id. */
  ghost predicate Right(run: seq<State>, hash: string -> nat, sid: Id, c: string, v: string)
  {
    forall j: nat :: j < |run| && Exists(run[j], sid) ==>
      var sh := ShardOf(run[j], sid); sh.collection == c && sh.start <= hash(v) <= sh.end
  }

  /** All collections there ever were have names among these. */
  ghost predicate Named(run: seq<State>, names: set<string>)
  {
    forall i :: 0 <= i < |run| ==> run[i].collections.Keys <= names
  }

  /** The collection exists by now. */
  ghost predicate Present(run: seq<State>, c: string)
  {
    |run| > 0 && c in run[|run| - 1].collections
  }

  /** No name followed by a bar begins another. */
  predicate BarApart(names: set<string>)
  {
    forall c, d :: c in names && d in names ==> !(c + "|" <= d)
  }

  predicate BarFree(c: string)
  {
    '|' !in c
  }

  lemma HasBar(c: string, d: string)
    requires c + "|" <= d
    ensures !BarFree(d)
  {
    assert d[|c|] == '|';
  }

  /** Names without a bar, which can be checked one by one as collections are created, are apart. */
  lemma BarFreeNamesAreApart(names: set<string>)
    requires forall c :: c in names ==> BarFree(c)
    ensures BarApart(names)
  {
    forall c, d | c in names && d in names
      ensures !(c + "|" <= d)
    {
      if c + "|" <= d { HasBar(c, d); }
    }
  }

  /** Two requests share a key only if they are the same, or one name followed by a bar begins the other. */
  lemma SharedKey(c: string, v: string, d: string, w: string)
    requires Joined(c, v) == Joined(d, w)
    ensures (c == d && v == w) || c + "|" <= d || d + "|" <= c
  {
    var k := Joined(c, v);
    assert k[..|c|] == c && k[|c|] == '|' && k[|c| + 1..] == v;
    assert k[..|d|] == d && k[|d|] == '|' && k[|d| + 1..] == w;
    if |c| < |d| {
      assert d[..|c|] == c && d[|c|] == '|';
      assert c + "|" == d[..|c| + 1];
    } else if |d| < |c| {
      assert c[..|d|] == d && c[|d|] == '|';
      assert d + "|" == c[..|d| + 1];
    }
  }

  /** A route resolved for the request itself is right, for good. */
  lemma OwnRouteIsRight(rf: RepFactor, hash: string -> nat, run: seq<State>, c: string, v: string, r: Resolved)
    requires Run(rf, run) && RouteKnown(run, c, hash(v), r)
    ensures Right(run, hash, r.shard, c, v)
  {
    var i: nat :| RouteWas(run, i, c, hash(v), r);
    forall j: nat | j < |run| && Exists(run[j], r.shard)
      ensures var sh := ShardOf(run[j], r.shard); sh.collection == c && sh.start <= hash(v) <= sh.end
    {
      RangeStays(rf, run, i, j, r.shard);
    }
  }

  lemma RouteNamed(rf: RepFactor, run: seq<State>, names: set<string>, c: string, key: nat, r: Resolved)
    requires Run(rf, run) && Named(run, names) && RouteKnown(run, c, key, r)
    ensures c in names
  {
    var i: nat :| RouteWas(run, i, c, key, r);
    RunInv(rf, run, i);
    assert Hosts(run[i], Home(run[i], r.shard), r.shard);
  }

  /** Among names that are apart, a route found under a request's key was resolved for that very request. */
  lemma ApartIsOwn(rf: RepFactor, hash: string -> nat, run: seq<State>, names: set<string>, c: string, v: string, r: Resolved)
    requires Run(rf, run) && Named(run, names) && BarApart(names) && c in names && Filled(run, hash, Joined(c, v), r)
    ensures RouteKnown(run, c, hash(v), r)
  {
    var d, w :| FilledBy(run, hash, Joined(c, v), r, d, w);
    RouteNamed(rf, run, names, d, hash(w), r);
    SharedKey(c, v, d, w);
  }

  // ---------------------------------------------------------------- requests

  /** An admitted request for a collection that exists, in a system whose collections all have names among these. */
  ghost predicate AdmittedAmong(rf: RepFactor, hash: string -> nat, names: set<string>, trace: seq<System>, a: nat, b: nat, q: Request)
  {
    && Reachable(rf, hash, trace) && a <= b < |trace| && Admitted(trace[a], trace[b], q)
    && Named(trace[b].run, names) && Present(trace[a].run, q.collection)
  }

  /** The admitted request goes to a shard of its collection that holds its id's hash. */
  ghost predicate RightlyRouted(hash: string -> nat, trace: seq<System>, a: nat, b: nat, q: Request)
    requires a < |trace| && b < |trace| && Cached(trace[a], q)
  {
    Right(trace[b].run, hash, RouteFor(trace[a], q).shard, q.collection, q.vectorID)
  }

  lemma PresentNamed(rf: RepFactor, hash: string -> nat, trace: seq<System>, a: nat, b: nat, names: set<string>, c: string)
    requires Reachable(rf, hash, trace) && a <= b < |trace| && Named(trace[b].run, names) && Present(trace[a].run, c)
    ensures c in names
  {
    TraceGrows(rf, hash, trace, a, b);
    assert trace[b].run[|trace[a].run| - 1] == trace[a].run[|trace[a].run| - 1];
  }

  lemma ApartIsRight(rf: RepFactor, hash: string -> nat, names: set<string>, trace: seq<System>, a: nat, b: nat, q: Request)
    requires BarApart(names) && AdmittedAmong(rf, hash, names, trace, a, b, q)
    ensures RightlyRouted(hash, trace, a, b, q)
  {
    ReachableGood(rf, hash, trace, b);
    ReadRouteFilled(rf, hash, trace, a, b, q.cache, Joined(q.collection, q.vectorID));
    PresentNamed(rf, hash, trace, a, b, names, q.collection);
    ApartIsOwn(rf, hash, trace[b].run, names, q.collection, q.vectorID, RouteFor(trace[a], q));
    OwnRouteIsRight(rf, hash, trace[b].run, q.collection, q.vectorID, RouteFor(trace[a], q));
  }

  // ---------------------------------------------------------------- where keys collide

  /** The driver goes through a run; then a route to its last state's shard is cached, and a worker given the shard. */
  ghost function Resolving(run: seq<State>, k: nat, key: string, sid: Id): System
    requires 0 < |run|
  {
    if k < |run| then System(run[..k + 1], map[], map[], map[])
    else if k == |run| then System(run, map[], map[(Shared, key) := Resolved(sid, 1)], map[])
    else System(run, map[], map[(Shared, key) := Resolved(sid, 1)], map[(1, sid) := 1])
  }

  ghost function Trace(run: seq<State>, key: string, sid: Id): (trace: seq<System>)
    requires 0 < |run|
    ensures |trace| == |run| + 2
  {
    seq(|run| + 2, k requires 0 <= k < |run| + 2 => Resolving(run, k, key, sid))
  }

  lemma DriverMoves(rf: RepFactor, hash: string -> nat, run: seq<State>, k: nat, key: string, sid: Id)
    requires Run(rf, run) && k + 1 < |run|
    ensures Moved(rf, hash, Resolving(run, k, key, sid), Resolving(run, k + 1, key, sid))
  {
    assert StepAt(rf, run, k);
    assert run[..k + 1] + [run[k + 1]] == run[..k + 2];
    assert MovesBy(rf, hash, Resolving(run, k, key, sid), DriverStep(run[k + 1]), Resolving(run, k + 1, key, sid));
  }

  lemma RouteMoves(rf: RepFactor, hash: string -> nat, run: seq<State>, d: string, sid: Id)
    requires Run(rf, run) && Scenario.OneShard(rf, run[|run| - 1], d, sid) && hash("x") < TWO64
    ensures var key := Joined(d, "x");
      && Moved(rf, hash, Resolving(run, |run| - 1, key, sid), Resolving(run, |run|, key, sid))
      && Moved(rf, hash, Resolving(run, |run|, key, sid), Resolving(run, |run| + 1, key, sid))
  {
    var key, n := Joined(d, "x"), |run|;
    assert run[..n] == run;
    assert MovesBy(rf, hash, Resolving(run, n - 1, key, sid), FetchWorker(Shared, d, "x", n - 1, sid), Resolving(run, n, key, sid));
    assert MovesBy(rf, hash, Resolving(run, n, key, sid), Assign(1, sid, n - 1, false), Resolving(run, n + 1, key, sid));
  }

  lemma TraceReachable(rf: RepFactor, hash: string -> nat, run: seq<State>, d: string, sid: Id)
    requires Run(rf, run) && Scenario.OneShard(rf, run[|run| - 1], d, sid) && hash("x") < TWO64
    ensures Reachable(rf, hash, Trace(run, Joined(d, "x"), sid))
  {
    var key := Joined(d, "x");
    RouteMoves(rf, hash, run, d, sid);
    assert run[..1] == [Initial];
    forall k: nat
      ensures Moves(rf, hash, Trace(run, key, sid), k)
    {
      if k + 1 < |run| { DriverMoves(rf, hash, run, k, key, sid); }
    }
  }

  /** The vector id of collection `c` whose key is that of id "x" of `d`. */
  function Twin(c: string, d: string): string
    requires c + "|" <= d
  {
    d[|c| + 1..] + "|x"
  }

  lemma TwinShares(c: string, d: string)
    requires c + "|" <= d
    ensures Joined(c, Twin(c, d)) == Joined(d, "x") && c != d
  {
    assert d == c + "|" + d[|c| + 1..];
  }

  /** A system with both collections, and the route for ("x") of `d` cached and its shard assigned. */
  ghost predicate Colliding(rf: RepFactor, hash: string -> nat, c: string, d: string, trace: seq<System>, sid: Id)
  {
    && Reachable(rf, hash, trace) && |trace| == 9 && Named(trace[8].run, {c, d})
    && Present(trace[8].run, c) && Present(trace[8].run, d)
    && trace[8].resolved == map[(Shared, Joined(d, "x")) := Resolved(sid, 1)] && CurrentEpoch(trace[8], 1, sid) == 1
    && sid > 0 && |trace[8].run| == 7 && Exists(trace[8].run[6], sid) && ShardOf(trace[8].run[6], sid).collection == d
  }

  lemma CollidingSystem(rf: RepFactor, hash: string -> nat, c: string, d: string) returns (trace: seq<System>, sid: Id)
    requires c != d && hash("x") < TWO64
    ensures Colliding(rf, hash, c, d, trace, sid)
  {
    var run: seq<State>;
    run, sid := Scenario.TwoCollectionsRun(rf, c, d);
    trace := Trace(run, Joined(d, "x"), sid);
    TraceReachable(rf, hash, run, d, sid);
  }

  /** Where one name followed by a bar begins another, a request for the one is admitted for a shard of the other. */
  lemma Misrouted(rf: RepFactor, hash: string -> nat, c: string, d: string) returns (trace: seq<System>, q: Request)
    requires c + "|" <= d && hash("x") < TWO64
    ensures q.collection == c && q.vectorID == Twin(c, d) && |trace| == 9 && Present(trace[8].run, d)
    ensures AdmittedAmong(rf, hash, {c, d}, trace, 8, 8, q) && !RightlyRouted(hash, trace, 8, 8, q)
  {
    TwinShares(c, d);
    var sid;
    trace, sid := CollidingSystem(rf, hash, c, d);
    q := Request(Shared, c, Twin(c, d), 1, 0, 0);
  }

  ghost predicate AlwaysRight(rf: RepFactor, hash: string -> nat, names: set<string>)
  {
    forall trace: seq<System>, a: nat, b: nat, q: Request ::
      AdmittedAmong(rf, hash, names, trace, a, b, q) ==> RightlyRouted(hash, trace, a, b, q)
  }

  /** Every request a worker admits is for a shard of the collection asked for that holds the id's hash, in every
      interleaving over collections with these names, if and only if no name followed by a bar begins another. */
  lemma CachedRoutesAreRightIff(rf: RepFactor, hash: string -> nat, names: set<string>)
    requires hash("x") < TWO64
    ensures AlwaysRight(rf, hash, names) <==> BarApart(names)
  {
    if BarApart(names) {
      forall trace: seq<System>, a: nat, b: nat, q: Request | AdmittedAmong(rf, hash, names, trace, a, b, q)
        ensures RightlyRouted(hash, trace, a, b, q)
      {
        ApartIsRight(rf, hash, names, trace, a, b, q);
      }
    } else {
      var c, d :| c in names && d in names && c + "|" <= d;
      var trace, q := Misrouted(rf, hash, c, d);
      assert AdmittedAmong(rf, hash, names, trace, 8, 8, q);
    }
  }

  /** With collections "a" and "a|b", the route of ("a|b", "x") is found by the request for ("a", "b|x"). */
  lemma BarsCollide(rf: RepFactor, hash: string -> nat) returns (trace: seq<System>, q: Request)
    requires hash("x") < TWO64
    ensures Joined("a|b", "x") == Joined("a", "b|x")
    ensures q.collection == "a" && q.vectorID == "b|x"
    ensures |trace| == 9 && AdmittedAmong(rf, hash, {"a", "a|b"}, trace, 8, 8, q) && Present(trace[8].run, "a|b")
    ensures !RightlyRouted(hash, trace, 8, 8, q)
  {
    assert "a|b"[2..] + "|x" == "b|x";
    trace, q := Misrouted(rf, hash, "a", "a|b");
  }
}
