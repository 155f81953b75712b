/** Finding the shard of a vector id: the placement driver's lookup, the gateway's cached routing table,
    and the gateway's split of an upsert into one batch per shard. */
module Routing {
  import opened Prelude
  import opened FsmTypes
  import opened FsmModel
  import opened FsmInvariant
  import opened History

  /** `order` lists the shards as a range over the map would meet them. */
  ghost predicate ShardOrder(shards: map<Id, Shard>, order: seq<Id>)
  {
    forall sid: Id :: sid in order <==> sid in shards
  }

  // ---------------------------------------------------------------- placement driver lookup

  /** The lookup of `GetWorker`: the first shard met whose range holds the hash. */
  method LookupShard(shards: map<Id, Shard>, order: seq<Id>, key: nat) returns (found: Option<Id>)
    requires ShardOrder(shards, order)
    ensures found.Some? ==> Holds(shards, found.value, key)
    ensures found.None? ==> !Covered(shards, key)
  {
    for k := 0 to |order|
      invariant forall i :: 0 <= i < k ==> !Holds(shards, order[i], key)
    {
      if shards[order[k]].start <= key <= shards[order[k]].end {
        return Some(order[k]);
      }
    }
    return None;
  }

  // ---------------------------------------------------------------- gateway routing table

  datatype RouteShard = RouteShard(shard: Id, start: nat, end: nat, epoch: nat, leaderAddr: string, replicaAddrs: seq<string>)

  /** A routing table built from a collection's status, in whatever order the shards were met. */
  ghost predicate TableOf(table: seq<RouteShard>, shards: map<Id, Shard>)
  {
    && (forall i :: 0 <= i < |table| ==> table[i].shard in shards && RouteOf(table[i], shards[table[i].shard]))
    && (forall sid: Id :: sid in shards ==> exists i :: 0 <= i < |table| && table[i].shard == sid)
  }

  ghost predicate RouteOf(r: RouteShard, sh: Shard)
  {
    r.start == sh.start && r.end == sh.end && r.epoch == sh.epoch
  }

  function Pick(table: seq<RouteShard>, key: nat): (r: Option<RouteShard>)
    ensures r.Some? ==> r.value in table && r.value.start <= key <= r.value.end
    ensures r.None? ==> forall i :: 0 <= i < |table| ==> !(table[i].start <= key <= table[i].end)
  {
    if table == [] then None
    else if table[0].start <= key <= table[0].end then Some(table[0])
    else
      assert table == [table[0]] + table[1..];
      Pick(table[1..], key)
  }

  /** The gateway's scan of its table. */
  method PickLoop(table: seq<RouteShard>, key: nat) returns (r: Option<RouteShard>)
    ensures r == Pick(table, key)
  {
    var k := 0;
    while k < |table|
      invariant k <= |table| && Pick(table[k..], key) == Pick(table, key)
    {
      if table[k].start <= key <= table[k].end {
        return Some(table[k]);
      }
      assert table[k..][1..] == table[k + 1..];
      k := k + 1;
    }
    return None;
  }

  /** The scan of a table built from some shards finds the one whose range holds the key. */
  lemma TableAgrees(shards: map<Id, Shard>, table: seq<RouteShard>, key: nat, sid: Id)
    requires Partition(shards) && TableOf(table, shards) && key < TWO64
    requires Holds(shards, sid, key)
    ensures Pick(table, key).Some? && Pick(table, key).value.shard == sid
    ensures RouteOf(Pick(table, key).value, shards[sid])
  {
    var i :| 0 <= i < |table| && table[i].shard == sid;
    assert table[i].start <= key <= table[i].end;
    var r := Pick(table, key).value;
    var j :| 0 <= j < |table| && table[j] == r;
    assert Holds(shards, r.shard, key);
  }

  /** A shard keeps its collection and its range for as long as it exists. */
  lemma RangeStays(rf: RepFactor, run: seq<State>, i: nat, j: nat, sid: Id)
    requires Run(rf, run) && i < |run| && j < |run| && Exists(run[i], sid) && Exists(run[j], sid)
    ensures var a, b := ShardOf(run[i], sid), ShardOf(run[j], sid);
      && a.collection == b.collection && a.start == b.start && a.end == b.end
      && Home(run[i], sid) == a.collection && Home(run[j], sid) == b.collection
  {
    if i <= j { RunFollows(rf, run, i, j); } else { RunFollows(rf, run, j, i); }
    RunInv(rf, run, i);
    RunInv(rf, run, j);
  }

  /** In every reachable state, whatever the map order, the driver's lookup in an existing collection finds a shard for
      every key: always the same one, and one that holds the key for as long as it exists. */
  lemma LookupIsTotal(rf: RepFactor, run: seq<State>, i: nat, c: string, key: nat) returns (sid: Id)
    requires Run(rf, run) && i < |run| && c in run[i].collections && key < TWO64
    ensures forall found: Id :: Holds(run[i].collections[c].shards, found, key) <==> found == sid
    ensures forall j: nat :: j < |run| && Exists(run[j], sid) ==>
      ShardOf(run[j], sid).start <= key <= ShardOf(run[j], sid).end && ShardOf(run[j], sid).collection == c
  {
    RunInv(rf, run, i);
    assert Covered(run[i].collections[c].shards, key);
    sid :| Holds(run[i].collections[c].shards, sid, key);
    HomeIs(run[i], c, sid);
    forall j: nat | j < |run| && Exists(run[j], sid)
      ensures ShardOf(run[j], sid).start <= key <= ShardOf(run[j], sid).end && ShardOf(run[j], sid).collection == c
    {
      RangeStays(rf, run, i, j, sid);
    }
  }

  /** However old the gateway's table (from state `i`) and however far behind the driver replica asked (at state `j`): the
      gateway's scan succeeds, and it names the very shard the driver's lookup finds, unless that shard did not exist
      when the table was built. */
  lemma LookupsAgree(rf: RepFactor, run: seq<State>, i: nat, j: nat, c: string, table: seq<RouteShard>, key: nat, found: Id)
    requires Run(rf, run) && i < |run| && j < |run| && c in run[i].collections && c in run[j].collections && key < TWO64
    requires TableOf(table, run[i].collections[c].shards) && Holds(run[j].collections[c].shards, found, key)
    ensures Pick(table, key).Some? && Hosts(run[i], c, Pick(table, key).value.shard)
    ensures Pick(table, key).value.shard == found <==> Exists(run[i], found)
  {
    var sid := LookupIsTotal(rf, run, i, c, key);
    RunInv(rf, run, i);
    TableAgrees(run[i].collections[c].shards, table, key, sid);
    RunInv(rf, run, j);
    HomeIs(run[j], c, found);
    HomeIs(run[i], c, sid);
    if Exists(run[i], found) {
      RangeStays(rf, run, i, j, found);
      assert Holds(run[i].collections[c].shards, found, key);
    }
  }

  // ---------------------------------------------------------------- upsert

  datatype Point = Point(id: string, vector: seq<real>, payload: map<string, string>)

  /** Where a point is to be sent, the epoch of the route, and when its lease ends. */
  datatype Target = Target(addr: string, shard: Id, epoch: nat, lease: int)

  /** The newest epoch and lease among the routes of a batch. */
  datatype Stamp = Stamp(epoch: nat, lease: int)

  datatype Batch = Batch(points: seq<Point>, stamp: Stamp)

  /** What the turn of one point brings: the lease a cached route gets from the clock, and the answer of a lookup. */
  datatype Turn = Turn(lease: int, answer: Option<Target>)

  type Batches = map<string, map<Id, Batch>>

  function Address(r: RouteShard): string
  {
    if r.leaderAddr != "" then r.leaderAddr else if |r.replicaAddrs| > 0 then r.replicaAddrs[0] else ""
  }

  /** The table's route of a point, or what a lookup answers when there is no usable one. */
  function Destination(table: seq<RouteShard>, hash: string -> nat, turn: Turn, p: Point): Option<Target>
  {
    var r := Pick(table, hash(p.id));
    if r.Some? && Address(r.value) != "" && r.value.shard != 0 then
      Some(Target(Address(r.value), r.value.shard, r.value.epoch, turn.lease))
    else turn.answer
  }

  /** Row `k` is the table's first to hold the hash. */
  ghost predicate FirstRow(table: seq<RouteShard>, key: nat, k: nat)
  {
    && k < |table| && table[k].start <= key <= table[k].end
    && forall i :: 0 <= i < k ==> !(table[i].start <= key <= table[i].end)
  }

  lemma {:induction false} PickIsFirst(table: seq<RouteShard>, key: nat) returns (k: nat)
    ensures if Pick(table, key).Some? then FirstRow(table, key, k) && Pick(table, key).value == table[k]
            else forall i: nat :: !FirstRow(table, key, i)
  {
    k := 0;
    if table != [] && !(table[0].start <= key <= table[0].end) {
      k := PickIsFirst(table[1..], key);
      assert forall i :: 1 <= i < |table| ==> table[i] == table[1..][i - 1];
      k := k + 1;
    }
  }

  /** A point goes to the leader of the first row that holds its hash, or to its first replica where no leader is known,
      under the row's epoch and a lease from now; where there is no such row, or it lacks a shard or an address, it goes
      where its lookup says. */
  lemma DestinationIs(table: seq<RouteShard>, hash: string -> nat, turn: Turn, p: Point)
    ensures forall k: nat {:trigger FirstRow(table, hash(p.id), k)} :: FirstRow(table, hash(p.id), k) ==>
      var r := table[k];
      Destination(table, hash, turn, p) ==
        if r.shard == 0 then turn.answer
        else if r.leaderAddr != "" then Some(Target(r.leaderAddr, r.shard, r.epoch, turn.lease))
        else if r.replicaAddrs != [] && r.replicaAddrs[0] != "" then Some(Target(r.replicaAddrs[0], r.shard, r.epoch, turn.lease))
        else turn.answer
    ensures (forall k: nat :: !FirstRow(table, hash(p.id), k)) ==> Destination(table, hash, turn, p) == turn.answer
  {
    var k := PickIsFirst(table, hash(p.id));
  }

  function Destinations(table: seq<RouteShard>, hash: string -> nat, turns: seq<Turn>, points: seq<Point>): (dests: seq<Option<Target>>)
    requires |turns| == |points|
    ensures |dests| == |points|
    ensures forall i :: 0 <= i < |points| ==> dests[i] == Destination(table, hash, turns[i], points[i])
  {
    seq(|points|, i requires 0 <= i < |points| => Destination(table, hash, turns[i], points[i]))
  }

  predicate SentTo(d: Option<Target>, addr: string, sid: Id)
  {
    d.Some? && d.value.addr == addr && d.value.shard == sid
  }

  /** The points bound for one shard at one address, in request order. */
  function Bound(dests: seq<Option<Target>>, points: seq<Point>, addr: string, sid: Id): seq<Point>
    requires |dests| == |points|
  {
    if points == [] then []
    else
      var n := |points| - 1;
      var rest := Bound(dests[..n], points[..n], addr, sid);
      if SentTo(dests[n], addr, sid) then rest + [points[n]] else rest
  }

  /** The batch lists, in request order, the points at exactly the positions that are sent there. */
  lemma {:induction false} BoundPositions(dests: seq<Option<Target>>, points: seq<Point>, addr: string, sid: Id) returns (at: seq<nat>)
    requires |dests| == |points|
    ensures |at| == |Bound(dests, points, addr, sid)|
    ensures forall k :: 0 <= k < |at| ==> at[k] < |points| && Bound(dests, points, addr, sid)[k] == points[at[k]]
    ensures forall k, l :: 0 <= k < l < |at| ==> at[k] < at[l]
    ensures forall i: nat :: i in at <==> i < |points| && SentTo(dests[i], addr, sid)
  {
    at := [];
    if points != [] {
      var n := |points| - 1;
      at := BoundPositions(dests[..n], points[..n], addr, sid);
      if SentTo(dests[n], addr, sid) { at := at + [n]; }
    }
  }

  /** The newest shard epoch, and the latest lease, among the routes to one shard at one address. */
  function Newest(dests: seq<Option<Target>>, addr: string, sid: Id): Option<Stamp>
  {
    if dests == [] then None
    else
      var rest, d := Newest(dests[..|dests| - 1], addr, sid), dests[|dests| - 1];
      if !SentTo(d, addr, sid) then rest
      else if rest.None? then Some(Stamp(d.value.epoch, d.value.lease))
      else Some(Stamp(Max(rest.value.epoch, d.value.epoch), Max(rest.value.lease, d.value.lease)))
  }

  /** The stamp is no older than any of the routes, and its epoch is that of one of them. */
  lemma {:induction false} NewestIsNewest(dests: seq<Option<Target>>, addr: string, sid: Id)
    ensures Newest(dests, addr, sid).Some? <==> exists i :: 0 <= i < |dests| && SentTo(dests[i], addr, sid)
    ensures Newest(dests, addr, sid).Some? ==>
      && (forall i :: 0 <= i < |dests| && SentTo(dests[i], addr, sid) ==>
            dests[i].value.epoch <= Newest(dests, addr, sid).value.epoch && dests[i].value.lease <= Newest(dests, addr, sid).value.lease)
      && (exists i :: 0 <= i < |dests| && SentTo(dests[i], addr, sid) && dests[i].value.epoch == Newest(dests, addr, sid).value.epoch)
  {
    if dests != [] {
      var n := |dests| - 1;
      NewestIsNewest(dests[..n], addr, sid);
      if i :| 0 <= i < n && SentTo(dests[..n][i], addr, sid) && dests[..n][i].value.epoch == Newest(dests[..n], addr, sid).value.epoch {
        assert SentTo(dests[i], addr, sid);
      }
      assert forall i :: 0 <= i < n ==> dests[i] == dests[..n][i];
    }
  }

  function BatchStamp(a: Batches, addr: string, sid: Id): Option<Stamp>
  {
    if addr in a && sid in a[addr] then Some(a[addr][sid].stamp) else None
  }

  function BatchPoints(a: Batches, addr: string, sid: Id): seq<Point>
  {
    if addr in a && sid in a[addr] then a[addr][sid].points else []
  }

  /** Add one point to the batch of its shard. */
  function Enlist(a: Batches, t: Target, p: Point): Batches
  {
    var shards := if t.addr in a then a[t.addr] else map[];
    var b := if t.shard in shards then shards[t.shard] else Batch([], Stamp(t.epoch, t.lease));
    a[t.addr := shards[t.shard := Batch(b.points + [p], Stamp(Max(b.stamp.epoch, t.epoch), Max(b.stamp.lease, t.lease)))]]
  }

  ghost predicate BatchesMatch(a: Batches, dests: seq<Option<Target>>, points: seq<Point>)
    requires |dests| == |points|
  {
    forall addr, sid: Id ::
      && BatchPoints(a, addr, sid) == Bound(dests, points, addr, sid)
      && BatchStamp(a, addr, sid) == Newest(dests, addr, sid)
  }

  /** The assignment loop: fails with the first unroutable point, otherwise every batch holds exactly the points
      bound for its shard, in request order, stamped with their newest epoch and lease. With an empty table, and the
      points in the order their lookups end, it is also the branch taken without one, whose lookups may be answered by
      the caches of resolved routes. */
  method AssignPoints(table: seq<RouteShard>, hash: string -> nat, turns: seq<Turn>, points: seq<Point>) returns (result: Option<Batches>)
    requires |turns| == |points|
    ensures result.None? <==> exists i :: 0 <= i < |points| && Destination(table, hash, turns[i], points[i]).None?
    ensures result.Some? ==> BatchesMatch(result.value, Destinations(table, hash, turns, points), points)
  {
    var a: Batches := map[];
    ghost var dests := Destinations(table, hash, turns, points);
    for k := 0 to |points|
      invariant forall i :: 0 <= i < k ==> dests[i].Some?
      invariant BatchesMatch(a, dests[..k], points[..k])
    {
      var p := points[k];
      var r := PickLoop(table, hash(p.id));
      var d: Option<Target>;
      if r.Some? && Address(r.value) != "" && r.value.shard != 0 {
        d := Some(Target(Address(r.value), r.value.shard, r.value.epoch, turns[k].lease));
      } else {
        d := turns[k].answer;
      }
      if d.None? {
        return None;
      }
      MatchStep(a, dests, points, k);
      a := Enlist(a, d.value, p);
    }
    assert points[..|points|] == points && dests[..|points|] == dests;
    return Some(a);
  }

  lemma MatchStep(a: Batches, dests: seq<Option<Target>>, points: seq<Point>, k: nat)
    requires k < |points| == |dests| && BatchesMatch(a, dests[..k], points[..k]) && dests[k].Some?
    ensures BatchesMatch(Enlist(a, dests[k].value, points[k]), dests[..k + 1], points[..k + 1])
  {
    var b := Enlist(a, dests[k].value, points[k]);
    assert points[..k + 1][..k] == points[..k] && dests[..k + 1][..k] == dests[..k];
    forall addr, sid: Id
      ensures BatchPoints(b, addr, sid) == Bound(dests[..k + 1], points[..k + 1], addr, sid)
      ensures BatchStamp(b, addr, sid) == Newest(dests[..k + 1], addr, sid)
    {
    }
  }

  // ---------------------------------------------------------------- a fully routed upsert

  /** Every shard of the table has an address and a real id. */
  ghost predicate FullyRouted(table: seq<RouteShard>)
  {
    forall r :: r in table ==> r.shard != 0 && (r.leaderAddr != "" || (r.replicaAddrs != [] && r.replicaAddrs[0] != ""))
  }

  /** The points whose hash a shard holds, in request order. */
  function OwnPoints(shards: map<Id, Shard>, hash: string -> nat, points: seq<Point>, sid: Id): seq<Point>
    requires sid in shards
  {
    if points == [] then []
    else
      var rest, p := OwnPoints(shards, hash, points[..|points| - 1], sid), points[|points| - 1];
      if shards[sid].start <= hash(p.id) <= shards[sid].end then rest + [p] else rest
  }

  /** A routing table as it is built: complete, one row per shard, every row usable. */
  ghost predicate RoutingTable(table: seq<RouteShard>, shards: map<Id, Shard>)
  {
    && Partition(shards) && TableOf(table, shards) && FullyRouted(table)
    && forall a, b :: a in table && b in table && a.shard == b.shard ==> a == b
  }

  lemma RoutedPoint(shards: map<Id, Shard>, table: seq<RouteShard>, hash: string -> nat, turn: Turn, p: Point, r: RouteShard, addr: string)
    requires RoutingTable(table, shards) && r in table && hash(p.id) < TWO64
    ensures r.shard in shards
    ensures var d := Destination(table, hash, turn, p);
      && d.Some?
      && (SentTo(d, addr, r.shard) <==> addr == Address(r) && Holds(shards, r.shard, hash(p.id)))
      && (SentTo(d, addr, r.shard) ==> d.value.epoch == r.epoch)
  {
    var key := hash(p.id);
    assert Covered(shards, key);
    var sid: Id :| Holds(shards, sid, key);
    TableAgrees(shards, table, key, sid);
    var picked := Pick(table, key).value;
    assert picked in table;
    var j :| 0 <= j < |table| && table[j] == r;
    assert Holds(shards, r.shard, key) <==> sid == r.shard;
  }

  lemma DestinationsFront(table: seq<RouteShard>, hash: string -> nat, turns: seq<Turn>, points: seq<Point>)
    requires |turns| == |points| > 0
    ensures var n := |points| - 1;
      Destinations(table, hash, turns, points)[..n] == Destinations(table, hash, turns[..n], points[..n])
  {
  }

  /** With every shard routed, an upsert never fails, and the batch of each shard is exactly the request's points
      whose hash it holds, in request order, under the epoch its route was cached with. */
  lemma {:induction false} UpsertPartitionsPoints(shards: map<Id, Shard>, table: seq<RouteShard>, hash: string -> nat,
                                                  turns: seq<Turn>, points: seq<Point>, r: RouteShard, addr: string)
    requires RoutingTable(table, shards) && r in table && r.shard in shards && |turns| == |points|
    requires forall id: string :: hash(id) < TWO64
    ensures var dests := Destinations(table, hash, turns, points);
      && Bound(dests, points, addr, r.shard) ==
           (if addr == (if r.leaderAddr != "" then r.leaderAddr else r.replicaAddrs[0]) then OwnPoints(shards, hash, points, r.shard) else [])
      && (Bound(dests, points, addr, r.shard) == [] <==> Newest(dests, addr, r.shard).None?)
      && (Newest(dests, addr, r.shard).Some? ==> Newest(dests, addr, r.shard).value.epoch == r.epoch)
  {
    if points != [] {
      var n := |points| - 1;
      DestinationsFront(table, hash, turns, points);
      UpsertPartitionsPoints(shards, table, hash, turns[..n], points[..n], r, addr);
      RoutedPoint(shards, table, hash, turns[n], points[n], r, addr);
    }
  }

  /** In a fully routed upsert every point has a destination. */
  lemma UpsertNeverFails(shards: map<Id, Shard>, table: seq<RouteShard>, hash: string -> nat, turn: Turn, p: Point)
    requires RoutingTable(table, shards) && hash(p.id) < TWO64
    ensures Destination(table, hash, turn, p).Some?
  {
    assert Covered(shards, hash(p.id));
    var sid: Id :| Holds(shards, sid, hash(p.id));
    TableAgrees(shards, table, hash(p.id), sid);
  }

  /** A batch can only name a shard of the table. */
  lemma {:induction false} NoOtherBatch(shards: map<Id, Shard>, table: seq<RouteShard>, hash: string -> nat,
                                        turns: seq<Turn>, points: seq<Point>, addr: string, sid: Id)
    requires RoutingTable(table, shards) && sid !in shards && |turns| == |points|
    requires forall id: string :: hash(id) < TWO64
    ensures Bound(Destinations(table, hash, turns, points), points, addr, sid) == []
  {
    if points != [] {
      var n := |points| - 1;
      var key := hash(points[n].id);
      DestinationsFront(table, hash, turns, points);
      NoOtherBatch(shards, table, hash, turns[..n], points[..n], addr, sid);
      assert Covered(shards, key);
      var own: Id :| Holds(shards, own, key);
      TableAgrees(shards, table, key, own);
    }
  }
}
