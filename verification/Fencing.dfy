/** Fencing by shard epoch, end to end: placement driver, gateway caches, workers. */
module Fencing {
  import opened Prelude
  import opened FsmTypes
  import opened FsmModel
  import opened FsmInvariant
  import opened History
  import opened Routing

  /** A gateway's own cache, or the one gateways share. */
  datatype Cache = Local(gateway: nat) | Shared

  /** A resolved route: the shard of a vector id and the epoch it was read at. */
  datatype Resolved = Resolved(shard: Id, epoch: nat)

  /** Resolved routes are cached under the name of the collection, a bar and the vector id, in one string. */
  function Joined(collection: string, vectorID: string): string
  {
    collection + "|" + vectorID
  }

  /** `epochs[(w, sid)]` is what worker `w` believes the epoch of shard `sid` to be. */
  datatype System = System(
    run: seq<State>, tables: map<(Cache, string), seq<RouteShard>>,
    resolved: map<(Cache, string), Resolved>, epochs: map<(Id, Id), nat>)

  datatype Action =
    | DriverStep(next: State)
    /** A gateway reads a collection's status from any driver replica, however far behind. */
    | FetchTable(cache: Cache, collection: string, at: nat, table: seq<RouteShard>)
    | CopyTable(source: Cache, cache: Cache, collection: string)
    | DropTable(cache: Cache, collection: string)
    /** A gateway resolves a vector id from a cached table. */
    | Resolve(source: Cache, cache: Cache, collection: string, vectorID: string)
    /** A gateway asks a driver replica for the worker of a vector id. */
    | FetchWorker(cache: Cache, collection: string, vectorID: string, at: nat, shard: Id)
    | CopyResolved(source: Cache, cache: Cache, key: string)
    | DropResolved(cache: Cache, key: string)
    /** A worker receives an assignment built from any driver replica's state; ordinary workers never go back. */
    | Assign(worker: Id, shard: Id, at: nat, searchOnly: bool)
    | Unassign(worker: Id, shard: Id)

  ghost predicate Enabled(rf: RepFactor, hash: string -> nat, m: System, a: Action)
  {
    match a
    case DriverStep(t) => |m.run| > 0 && Next(rf, m.run[|m.run| - 1], t)
    case FetchTable(_, c, i, table) =>
      i < |m.run| && c in m.run[i].collections && TableOf(table, m.run[i].collections[c].shards)
    case CopyTable(source, _, c) => (source, c) in m.tables
    case Resolve(source, _, c, v) => v != "" && (source, c) in m.tables && Pick(m.tables[(source, c)], hash(v)).Some?
    case FetchWorker(_, c, v, i, sid) =>
      v != "" && i < |m.run| && c in m.run[i].collections && Holds(m.run[i].collections[c].shards, sid, hash(v))
    case CopyResolved(source, _, key) => (source, key) in m.resolved
    case Assign(_, sid, i, _) => i < |m.run| && Exists(m.run[i], sid)
    case _ => true
  }

  ghost function After(rf: RepFactor, hash: string -> nat, m: System, a: Action): System
    requires Enabled(rf, hash, m, a)
  {
    match a
    case DriverStep(t) => m.(run := m.run + [t])
    case FetchTable(cache, c, _, table) => m.(tables := m.tables[(cache, c) := table])
    case CopyTable(source, cache, c) => m.(tables := m.tables[(cache, c) := m.tables[(source, c)]])
    case DropTable(cache, c) => m.(tables := m.tables - {(cache, c)})
    case Resolve(source, cache, c, v) =>
      var r := Pick(m.tables[(source, c)], hash(v)).value;
      m.(resolved := m.resolved[(cache, Joined(c, v)) := Resolved(r.shard, r.epoch)])
    case FetchWorker(cache, c, v, i, sid) =>
      m.(resolved := m.resolved[(cache, Joined(c, v)) := Resolved(sid, m.run[i].collections[c].shards[sid].epoch)])
    case CopyResolved(source, cache, key) => m.(resolved := m.resolved[(cache, key) := m.resolved[(source, key)]])
    case DropResolved(cache, key) => m.(resolved := m.resolved - {(cache, key)})
    case Assign(w, sid, i, searchOnly) =>
      var e := ShardOf(m.run[i], sid).epoch;
      var known := if (w, sid) in m.epochs then m.epochs[(w, sid)] else 0;
      m.(epochs := m.epochs[(w, sid) := if searchOnly || e > known then e else known])
    case Unassign(w, sid) => m.(epochs := m.epochs - {(w, sid)})
  }

  datatype LeaseError = MissingEpoch | StaleEpoch(have: nat, want: nat) | LeaseExpired

  /** The worker's lease check on a request for one shard; `current` is zero for a shard it does not know. */
  function LeaseCheck(current: nat, shard: Id, epoch: nat, leaseExpiryMs: int, nowMs: int): Option<LeaseError>
  {
    if shard == 0 then None
    else if epoch == 0 then Some(MissingEpoch)
    else if current == 0 || epoch != current then Some(StaleEpoch(epoch, current))
    else if leaseExpiryMs > 0 && nowMs > leaseExpiryMs then Some(LeaseExpired)
    else None
  }

  function Admits(current: nat, shard: Id, epoch: nat, leaseExpiryMs: int, nowMs: int): bool
  {
    LeaseCheck(current, shard, epoch, leaseExpiryMs, nowMs).None?
  }

  function CurrentEpoch(m: System, w: Id, sid: Id): nat
  {
    if (w, sid) in m.epochs then m.epochs[(w, sid)] else 0
  }

  // ---------------------------------------------------------------- where cached facts come from

  /** At moment `i` of the run, shard `sid` had epoch `e`. */
  ghost predicate Was(run: seq<State>, i: nat, sid: Id, e: nat)
  {
    i < |run| && Exists(run[i], sid) && ShardOf(run[i], sid).epoch == e
  }

  ghost predicate Known(run: seq<State>, sid: Id, e: nat)
  {
    exists i: nat :: Was(run, i, sid, e)
  }

  /** A route resolved for a vector id names a shard and epoch the driver once had, in the collection asked for and
      holding the id's hash. */
  ghost predicate RouteWas(run: seq<State>, i: nat, c: string, key: nat, r: Resolved)
  {
    Was(run, i, r.shard, r.epoch) && var sh := ShardOf(run[i], r.shard); sh.collection == c && sh.start <= key <= sh.end
  }

  ghost predicate RouteKnown(run: seq<State>, c: string, key: nat, r: Resolved)
  {
    exists i: nat :: RouteWas(run, i, c, key, r)
  }

  /** A cached route was resolved for some request with this key, though not always for the one that finds it. */
  ghost predicate FilledBy(run: seq<State>, hash: string -> nat, key: string, r: Resolved, c: string, v: string)
  {
    Joined(c, v) == key && v != "" && RouteKnown(run, c, hash(v), r)
  }

  ghost predicate Filled(run: seq<State>, hash: string -> nat, key: string, r: Resolved)
  {
    exists c, v :: FilledBy(run, hash, key, r, c, v)
  }

  ghost predicate TableKnown(run: seq<State>, c: string, table: seq<RouteShard>)
  {
    exists i: nat :: TableWas(run, i, c, table)
  }

  ghost predicate TableWas(run: seq<State>, i: nat, c: string, table: seq<RouteShard>)
  {
    i < |run| && c in run[i].collections && TableOf(table, run[i].collections[c].shards)
  }

  ghost predicate Good(rf: RepFactor, hash: string -> nat, m: System)
  {
    && Run(rf, m.run)
    && (forall k :: k in m.tables ==> TableKnown(m.run, k.1, m.tables[k]))
    && (forall k :: k in m.resolved ==> Filled(m.run, hash, k.1, m.resolved[k]))
    && (forall k :: k in m.epochs ==> Known(m.run, k.1, m.epochs[k]))
  }

  // ---------------------------------------------------------------- preservation

  lemma ShardInCollection(rf: RepFactor, run: seq<State>, i: nat, c: string, sid: Id, key: nat)
    requires Run(rf, run) && i < |run| && c in run[i].collections && Holds(run[i].collections[c].shards, sid, key)
    ensures RouteWas(run, i, c, key, Resolved(sid, run[i].collections[c].shards[sid].epoch))
  {
    RunInv(rf, run, i);
    HomeIs(run[i], c, sid);
  }

  lemma ResolvedFromTable(rf: RepFactor, run: seq<State>, c: string, table: seq<RouteShard>, key: nat)
    requires Run(rf, run) && TableKnown(run, c, table) && Pick(table, key).Some?
    ensures RouteKnown(run, c, key, Resolved(Pick(table, key).value.shard, Pick(table, key).value.epoch))
  {
    var i: nat :| TableWas(run, i, c, table);
    var r := Pick(table, key).value;
    var j :| 0 <= j < |table| && table[j] == r;
    ShardInCollection(rf, run, i, c, r.shard, key);
  }

  lemma RouteKnownGrows(run: seq<State>, run': seq<State>, c: string, key: nat, r: Resolved)
    requires run <= run' && RouteKnown(run, c, key, r)
    ensures RouteKnown(run', c, key, r)
  {
    var i: nat :| RouteWas(run, i, c, key, r);
    assert run'[i] == run[i];
    assert RouteWas(run', i, c, key, r);
  }

  lemma FilledGrows(hash: string -> nat, run: seq<State>, run': seq<State>, key: string, r: Resolved)
    requires run <= run' && Filled(run, hash, key, r)
    ensures Filled(run', hash, key, r)
  {
    var c, v :| FilledBy(run, hash, key, r, c, v);
    RouteKnownGrows(run, run', c, hash(v), r);
    assert FilledBy(run', hash, key, r, c, v);
  }

  lemma DriverStepGood(rf: RepFactor, hash: string -> nat, m: System, t: State)
    requires Good(rf, hash, m) && Next(rf, m.run[|m.run| - 1], t)
    ensures Good(rf, hash, m.(run := m.run + [t]))
  {
    var run' := m.run + [t];
    RunExtends(rf, m.run, t);
    assert forall i: nat :: i < |m.run| ==> run'[i] == m.run[i];
    forall k | k in m.tables
      ensures TableKnown(run', k.1, m.tables[k])
    {
      assert TableKnown(m.run, k.1, m.tables[k]);
      var i: nat :| TableWas(m.run, i, k.1, m.tables[k]);
      assert TableWas(run', i, k.1, m.tables[k]);
    }
    forall k | k in m.resolved
      ensures Filled(run', hash, k.1, m.resolved[k])
    {
      FilledGrows(hash, m.run, run', k.1, m.resolved[k]);
    }
    forall k | k in m.epochs
      ensures Known(run', k.1, m.epochs[k])
    {
      assert Known(m.run, k.1, m.epochs[k]);
      var i: nat :| Was(m.run, i, k.1, m.epochs[k]);
      assert Was(run', i, k.1, m.epochs[k]);
    }
  }

  lemma PutTableGood(rf: RepFactor, hash: string -> nat, m: System, cache: Cache, c: string, table: seq<RouteShard>)
    requires Good(rf, hash, m) && TableKnown(m.run, c, table)
    ensures Good(rf, hash, m.(tables := m.tables[(cache, c) := table]))
  {
  }

  lemma PutResolvedGood(rf: RepFactor, hash: string -> nat, m: System, cache: Cache, key: string, r: Resolved)
    requires Good(rf, hash, m) && Filled(m.run, hash, key, r)
    ensures Good(rf, hash, m.(resolved := m.resolved[(cache, key) := r]))
  {
  }

  lemma DropGood(rf: RepFactor, hash: string -> nat, m: System, cache: Cache, key: string, w: Id, sid: Id)
    requires Good(rf, hash, m)
    ensures Good(rf, hash, m.(tables := m.tables - {(cache, key)}))
    ensures Good(rf, hash, m.(resolved := m.resolved - {(cache, key)}))
    ensures Good(rf, hash, m.(epochs := m.epochs - {(w, sid)}))
  {
  }

  lemma ResolveGood(rf: RepFactor, hash: string -> nat, m: System, source: Cache, cache: Cache, c: string, v: string)
    requires Good(rf, hash, m) && Enabled(rf, hash, m, Resolve(source, cache, c, v))
    ensures Good(rf, hash, After(rf, hash, m, Resolve(source, cache, c, v)))
  {
    ResolvedFromTable(rf, m.run, c, m.tables[(source, c)], hash(v));
    var r := Pick(m.tables[(source, c)], hash(v)).value;
    assert FilledBy(m.run, hash, Joined(c, v), Resolved(r.shard, r.epoch), c, v);
    PutResolvedGood(rf, hash, m, cache, Joined(c, v), Resolved(r.shard, r.epoch));
  }

  lemma FetchWorkerGood(rf: RepFactor, hash: string -> nat, m: System, cache: Cache, c: string, v: string, i: nat, sid: Id)
    requires Good(rf, hash, m) && Enabled(rf, hash, m, FetchWorker(cache, c, v, i, sid))
    ensures Good(rf, hash, After(rf, hash, m, FetchWorker(cache, c, v, i, sid)))
  {
    var r := Resolved(sid, m.run[i].collections[c].shards[sid].epoch);
    ShardInCollection(rf, m.run, i, c, sid, hash(v));
    assert FilledBy(m.run, hash, Joined(c, v), r, c, v);
    PutResolvedGood(rf, hash, m, cache, Joined(c, v), r);
  }

  lemma PutEpochGood(rf: RepFactor, hash: string -> nat, m: System, w: Id, sid: Id, e: nat)
    requires Good(rf, hash, m) && Known(m.run, sid, e)
    ensures Good(rf, hash, m.(epochs := m.epochs[(w, sid) := e]))
  {
  }

  lemma AssignGood(rf: RepFactor, hash: string -> nat, m: System, w: Id, sid: Id, i: nat, searchOnly: bool)
    requires Good(rf, hash, m) && i < |m.run| && Exists(m.run[i], sid)
    ensures Good(rf, hash, After(rf, hash, m, Assign(w, sid, i, searchOnly)))
  {
    assert Was(m.run, i, sid, ShardOf(m.run[i], sid).epoch);
    PutEpochGood(rf, hash, m, w, sid, ShardOf(m.run[i], sid).epoch);
    if (w, sid) in m.epochs {
      assert Known(m.run, sid, m.epochs[(w, sid)]);
      PutEpochGood(rf, hash, m, w, sid, m.epochs[(w, sid)]);
    }
  }

  lemma FetchTableGood(rf: RepFactor, hash: string -> nat, m: System, cache: Cache, c: string, i: nat, table: seq<RouteShard>)
    requires Good(rf, hash, m) && TableWas(m.run, i, c, table)
    ensures Good(rf, hash, m.(tables := m.tables[(cache, c) := table]))
  {
    PutTableGood(rf, hash, m, cache, c, table);
  }

  lemma ActionGood(rf: RepFactor, hash: string -> nat, m: System, a: Action)
    requires Good(rf, hash, m) && Enabled(rf, hash, m, a)
    ensures Good(rf, hash, After(rf, hash, m, a))
  {
    match a
    case DriverStep(t) => DriverStepGood(rf, hash, m, t);
    case FetchTable(cache, c, i, table) => FetchTableGood(rf, hash, m, cache, c, i, table);
    case CopyTable(source, cache, c) => PutTableGood(rf, hash, m, cache, c, m.tables[(source, c)]);
    case DropTable(cache, c) => DropGood(rf, hash, m, cache, c, 0, 0);
    case Resolve(source, cache, c, v) => ResolveGood(rf, hash, m, source, cache, c, v);
    case FetchWorker(cache, c, v, i, sid) => FetchWorkerGood(rf, hash, m, cache, c, v, i, sid);
    case CopyResolved(source, cache, key) => PutResolvedGood(rf, hash, m, cache, key, m.resolved[(source, key)]);
    case DropResolved(cache, key) => DropGood(rf, hash, m, cache, key, 0, 0);
    case Assign(w, sid, i, searchOnly) => AssignGood(rf, hash, m, w, sid, i, searchOnly);
    case Unassign(w, sid) => DropGood(rf, hash, m, Shared, "", w, sid);
  }

  // ---------------------------------------------------------------- reachable systems

  ghost predicate MovesBy(rf: RepFactor, hash: string -> nat, m: System, a: Action, t: System)
  {
    Enabled(rf, hash, m, a) && t == After(rf, hash, m, a)
  }

  ghost predicate Moved(rf: RepFactor, hash: string -> nat, m: System, t: System)
  {
    exists a: Action :: MovesBy(rf, hash, m, a, t)
  }

  ghost predicate Reachable(rf: RepFactor, hash: string -> nat, trace: seq<System>)
  {
    && |trace| > 0 && trace[0] == System([Initial], map[], map[], map[])
    && forall i: nat :: Moves(rf, hash, trace, i)
  }

  ghost predicate Moves(rf: RepFactor, hash: string -> nat, trace: seq<System>, i: nat)
  {
    i + 1 < |trace| ==> Moved(rf, hash, trace[i], trace[i + 1])
  }

  lemma {:induction false} ReachableGood(rf: RepFactor, hash: string -> nat, trace: seq<System>, i: nat)
    requires Reachable(rf, hash, trace) && i < |trace|
    ensures Good(rf, hash, trace[i])
  {
    if i == 0 {
      assert forall k: nat :: StepAt(rf, [Initial], k);
    } else {
      ReachableGood(rf, hash, trace, i - 1);
      assert Moves(rf, hash, trace, i - 1);
      var a: Action :| MovesBy(rf, hash, trace[i - 1], a, trace[i]);
      ActionGood(rf, hash, trace[i - 1], a);
    }
  }

  lemma {:induction false} TraceGrows(rf: RepFactor, hash: string -> nat, trace: seq<System>, a: nat, b: nat)
    requires Reachable(rf, hash, trace) && a <= b < |trace|
    ensures trace[a].run <= trace[b].run
  {
    if a < b {
      TraceGrows(rf, hash, trace, a, b - 1);
      assert Moves(rf, hash, trace, b - 1);
      var x: Action :| MovesBy(rf, hash, trace[b - 1], x, trace[b]);
    }
  }

  // ---------------------------------------------------------------- fencing

  /** A request for a vector id, routed by what a cache holds under its key, and checked by a worker. */
  datatype Request = Request(cache: Cache, collection: string, vectorID: string, worker: Id, leaseExpiryMs: int, nowMs: int)

  ghost predicate Cached(m: System, q: Request)
  {
    (q.cache, Joined(q.collection, q.vectorID)) in m.resolved
  }

  ghost function RouteFor(m: System, q: Request): Resolved
    requires Cached(m, q)
  {
    m.resolved[(q.cache, Joined(q.collection, q.vectorID))]
  }

  /** The worker admits, in one system, the request routed in another, for a real shard. */
  ghost predicate Admitted(routed: System, checked: System, q: Request)
  {
    && Cached(routed, q) && RouteFor(routed, q).shard != 0
    && var r := RouteFor(routed, q);
       Admits(CurrentEpoch(checked, q.worker, r.shard), r.shard, r.epoch, q.leaseExpiryMs, q.nowMs)
  }

  /** The lease ends after now, or never. */
  ghost predicate InTime(leaseExpiryMs: int, nowMs: int)
  {
    leaseExpiryMs <= 0 || nowMs <= leaseExpiryMs
  }

  /** A request to all of a worker's shards is always admitted. One for a single shard is admitted if and only if it names
      an epoch, the worker was given the shard at that very epoch, and the lease is in time; otherwise the error is that
      of the first of these three that fails. */
  lemma LeaseVerdicts(m: System, w: Id, shard: Id, epoch: nat, leaseExpiryMs: int, nowMs: int)
    ensures var v := LeaseCheck(CurrentEpoch(m, w, shard), shard, epoch, leaseExpiryMs, nowMs);
      var given := (w, shard) in m.epochs && m.epochs[(w, shard)] == epoch;
      && (v == None <==> shard == 0 || (epoch > 0 && given && InTime(leaseExpiryMs, nowMs)))
      && (v == Some(MissingEpoch) <==> shard != 0 && epoch == 0)
      && (v == Some(LeaseExpired) <==> shard != 0 && epoch > 0 && given && !InTime(leaseExpiryMs, nowMs))
      && (v.Some? && v.value.StaleEpoch? <==> shard != 0 && epoch > 0 && !given)
  {
  }

  // ---------------------------------------------------------------- what a worker believes

  /** An ordinary worker goes over to the epoch of an assignment only if that is newer; a search-only one always does. */
  lemma AssignmentsTaken(rf: RepFactor, hash: string -> nat, m: System, w: Id, sid: Id, i: nat, searchOnly: bool)
    requires i < |m.run| && Exists(m.run[i], sid)
    ensures var t := After(rf, hash, m, Assign(w, sid, i, searchOnly)); var e := ShardOf(m.run[i], sid).epoch;
      && CurrentEpoch(t, w, sid) == (if searchOnly then e else Max(e, CurrentEpoch(m, w, sid)))
      && t == m.(epochs := t.epochs) && t.epochs - {(w, sid)} == m.epochs - {(w, sid)}
  {
  }

  /** The worker neither loses the shard in this step nor takes it as a search-only worker. */
  ghost predicate Held(rf: RepFactor, hash: string -> nat, m: System, t: System, w: Id, sid: Id)
  {
    exists a: Action :: HeldBy(rf, hash, m, a, t, w, sid)
  }

  ghost predicate HeldBy(rf: RepFactor, hash: string -> nat, m: System, a: Action, t: System, w: Id, sid: Id)
  {
    && MovesBy(rf, hash, m, a, t) && a != Unassign(w, sid)
    && !(a.Assign? && a.worker == w && a.shard == sid && a.searchOnly)
  }

  ghost predicate HeldAt(rf: RepFactor, hash: string -> nat, trace: seq<System>, k: nat, w: Id, sid: Id)
  {
    k + 1 < |trace| ==> Held(rf, hash, trace[k], trace[k + 1], w, sid)
  }

  lemma HeldKeeps(rf: RepFactor, hash: string -> nat, m: System, a: Action, t: System, w: Id, sid: Id)
    requires HeldBy(rf, hash, m, a, t, w, sid)
    ensures CurrentEpoch(m, w, sid) <= CurrentEpoch(t, w, sid)
  {
  }

  /** While it holds a shard, an ordinary worker's epoch never goes back, whatever assignments reach it and in whatever
      order; so a route it has once refused as stale it never admits again. */
  lemma {:induction false} EpochsNeverGoBack(rf: RepFactor, hash: string -> nat, trace: seq<System>, a: nat, b: nat, w: Id, sid: Id)
    requires Reachable(rf, hash, trace) && a <= b < |trace| && forall k: nat :: a <= k < b ==> HeldAt(rf, hash, trace, k, w, sid)
    ensures CurrentEpoch(trace[a], w, sid) <= CurrentEpoch(trace[b], w, sid)
    ensures forall epoch: nat, leaseExpiryMs, nowMs :: epoch < CurrentEpoch(trace[a], w, sid) && sid != 0 ==>
      !Admits(CurrentEpoch(trace[b], w, sid), sid, epoch, leaseExpiryMs, nowMs)
  {
    if a < b {
      EpochsNeverGoBack(rf, hash, trace, a, b - 1, w, sid);
      assert HeldAt(rf, hash, trace, b - 1, w, sid);
      var x: Action :| HeldBy(rf, hash, trace[b - 1], x, trace[b], w, sid);
      HeldKeeps(rf, hash, trace[b - 1], x, trace[b], w, sid);
    }
  }

  // ---------------------------------------------------------------- admitted requests

  /** Both driver states give the shard the same range, in the same collection. */
  ghost predicate SameRange(run: seq<State>, i: nat, j: nat, sid: Id)
  {
    && i < |run| && j < |run| && Exists(run[i], sid) && Exists(run[j], sid)
    && var a, b := ShardOf(run[i], sid), ShardOf(run[j], sid);
       a.start == b.start && a.end == b.end && a.collection == b.collection
  }

  /** And the same replicas. */
  ghost predicate SameConfiguration(run: seq<State>, i: nat, j: nat, sid: Id)
  {
    SameRange(run, i, j, sid) && ShardOf(run[i], sid).replicas == ShardOf(run[j], sid).replicas
  }

  lemma FilledWas(hash: string -> nat, run: seq<State>, key: string, r: Resolved) returns (i: nat)
    requires Filled(run, hash, key, r)
    ensures Was(run, i, r.shard, r.epoch)
  {
    var c, v :| FilledBy(run, hash, key, r, c, v);
    i :| RouteWas(run, i, c, hash(v), r);
  }

  lemma WorkerWas(rf: RepFactor, hash: string -> nat, m: System, w: Id, sid: Id) returns (j: nat)
    requires Good(rf, hash, m) && CurrentEpoch(m, w, sid) != 0
    ensures Was(m.run, j, sid, CurrentEpoch(m, w, sid))
  {
    assert Known(m.run, sid, m.epochs[(w, sid)]);
    j :| Was(m.run, j, sid, m.epochs[(w, sid)]);
  }

  /** Two moments of one shard: the range is the same, and the replicas too where the epochs are. */
  lemma TwoMoments(rf: RepFactor, run: seq<State>, i: nat, j: nat, sid: Id, e: nat, f: nat)
    requires Run(rf, run) && Was(run, i, sid, e) && Was(run, j, sid, f)
    ensures e > 0 && SameRange(run, i, j, sid) && (e == f ==> SameConfiguration(run, i, j, sid))
  {
    RangeStays(rf, run, i, j, sid);
    RunInv(rf, run, i);
    assert Hosts(run[i], Home(run[i], sid), sid);
    if e == f { EpochNamesOneConfiguration(rf, run, i, j, sid); }
  }

  /** A route the driver once had, held against what a worker believes. */
  lemma RouteAgainstWorker(rf: RepFactor, hash: string -> nat, m: System, key: string, r: Resolved, w: Id) returns (i: nat, j: nat)
    requires Good(rf, hash, m) && Filled(m.run, hash, key, r) && CurrentEpoch(m, w, r.shard) != 0
    ensures Was(m.run, i, r.shard, r.epoch) && Was(m.run, j, r.shard, CurrentEpoch(m, w, r.shard)) && r.epoch > 0
    ensures SameRange(m.run, i, j, r.shard) && (r.epoch == CurrentEpoch(m, w, r.shard) ==> SameConfiguration(m.run, i, j, r.shard))
  {
    i := FilledWas(hash, m.run, key, r);
    j := WorkerWas(rf, hash, m, w, r.shard);
    TwoMoments(rf, m.run, i, j, r.shard, r.epoch, CurrentEpoch(m, w, r.shard));
  }

  /** A cached route, however long ago it was read and whatever has become of its entry since. */
  lemma ReadRouteFilled(rf: RepFactor, hash: string -> nat, trace: seq<System>, a: nat, b: nat, cache: Cache, key: string)
    requires Reachable(rf, hash, trace) && a <= b < |trace| && (cache, key) in trace[a].resolved
    ensures Filled(trace[b].run, hash, key, trace[a].resolved[(cache, key)])
  {
    ReachableGood(rf, hash, trace, a);
    TraceGrows(rf, hash, trace, a, b);
    assert Filled(trace[a].run, hash, key, trace[a].resolved[(cache, key)]);
    FilledGrows(hash, trace[a].run, trace[b].run, key, trace[a].resolved[(cache, key)]);
  }

  /** Whatever the caching, staleness, retries and interleaving, and whatever happens while the request is on its way: if a
      worker admits (in system `b`) a request routed before (in system `a`) for a real shard, the driver state behind the
      gateway's route (`i`) and the one behind the worker's epoch (`j`) give that shard the same replica list, range and
      collection. */
  lemma AdmittedRequestsAreFenced(rf: RepFactor, hash: string -> nat, trace: seq<System>, a: nat, b: nat, q: Request)
    returns (i: nat, j: nat)
    requires Reachable(rf, hash, trace) && a <= b < |trace| && Admitted(trace[a], trace[b], q)
    ensures var r := RouteFor(trace[a], q);
      && Was(trace[b].run, i, r.shard, r.epoch) && Was(trace[b].run, j, r.shard, CurrentEpoch(trace[b], q.worker, r.shard))
      && SameConfiguration(trace[b].run, i, j, r.shard)
  {
    ReachableGood(rf, hash, trace, b);
    var key := Joined(q.collection, q.vectorID);
    ReadRouteFilled(rf, hash, trace, a, b, q.cache, key);
    i, j := RouteAgainstWorker(rf, hash, trace[b], key, RouteFor(trace[a], q), q.worker);
  }
}
