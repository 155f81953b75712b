/** The placement driver's answer to a gateway that asks for a worker: the shard of an id, and a healthy replica of it. */
module DriverLookup {
  import opened Prelude
  import opened FsmTypes
  import opened FsmModel
  import opened FsmInvariant
  import opened History
  import opened Routing

  datatype Refusal = NoCollectionName | NoSuchCollection | NoShards | NoShardForHash | NoReplicas | NoHealthyReplica

  datatype Answer = Refuse(why: Refusal) | Found(addr: string, shard: Id, epoch: nat)

  /** Asked for no vector in particular, the driver takes the shard with the lowest id. */
  method LowestShard(shards: map<Id, Shard>) returns (low: Id)
    requires shards != map[]
    ensures low in shards && forall sid: Id :: sid in shards ==> low <= sid
  {
    var left := shards.Keys;
    low :| low in left;
    left := left - {low};
    while left != {}
      invariant left <= shards.Keys && low in shards && forall sid: Id :: sid in shards && sid !in left ==> low <= sid
      decreases |left|
    {
      var sid :| sid in left;
      if sid < low {
        low := sid;
      }
      left := left - {sid};
    }
  }

  /** The worker that is to serve a shard: its leader if that is healthy, or else the first replica that is. */
  ghost predicate Serves(ws: map<Id, Worker>, sh: Shard, w: Id, now: int)
  {
    && IsHealthy(ws, w, now)
    && if sh.leader != 0 && IsHealthy(ws, sh.leader, now) then w == sh.leader
       else exists k :: FirstHealthy(ws, sh.replicas, k, now) && sh.replicas[k] == w
  }

  ghost predicate FirstHealthy(ws: map<Id, Worker>, replicas: seq<Id>, k: int, now: int)
  {
    0 <= k < |replicas| && IsHealthy(ws, replicas[k], now) && forall i :: 0 <= i < k ==> !IsHealthy(ws, replicas[i], now)
  }

  method ServingWorker(ws: map<Id, Worker>, sh: Shard, now: int) returns (w: Option<Id>)
    ensures w.Some? ==> Serves(ws, sh, w.value, now)
    ensures w.None? ==> !(sh.leader != 0 && IsHealthy(ws, sh.leader, now)) && forall r :: r in sh.replicas ==> !IsHealthy(ws, r, now)
  {
    if sh.leader != 0 && sh.leader in ws && Healthy(ws[sh.leader], now) {
      return Some(sh.leader);
    }
    for k := 0 to |sh.replicas|
      invariant forall i :: 0 <= i < k ==> !IsHealthy(ws, sh.replicas[i], now)
    {
      if sh.replicas[k] in ws && Healthy(ws[sh.replicas[k]], now) {
        assert FirstHealthy(ws, sh.replicas, k, now);
        return Some(sh.replicas[k]);
      }
    }
    return None;
  }

  /** The shard asked for: the one that holds the hash of the id sent, or, with none sent, the one with the lowest id. */
  ghost predicate AskedFor(shards: map<Id, Shard>, hash: Option<nat>, sid: Id)
  {
    match hash
    case Some(key) => Holds(shards, sid, key)
    case None => sid in shards && forall other: Id :: other in shards ==> sid <= other
  }

  /** Why an answer is refused, by the shard asked for. */
  ghost predicate Justified(s: State, c: string, hash: Option<nat>, now: int, why: Refusal)
  {
    match why
    case NoCollectionName => c == ""
    case NoSuchCollection => c != "" && c !in s.collections
    case NoReplicas => c != "" && c in s.collections && exists sid: Id :: AskedFor(s.collections[c].shards, hash, sid) && s.collections[c].shards[sid].replicas == []
    case NoHealthyReplica => c != "" && c in s.collections && exists sid: Id :: AskedFor(s.collections[c].shards, hash, sid) && Unserved(s, c, sid, now)
    case _ => false
  }

  ghost predicate Unserved(s: State, c: string, sid: Id, now: int)
  {
    && c in s.collections && sid in s.collections[c].shards
    && var sh := s.collections[c].shards[sid];
       sh.replicas != [] && forall r :: r in sh.replicas + [sh.leader] ==> !IsHealthy(s.workers, r, now)
  }

  /** The right worker's address, with the shard and its epoch. */
  ghost predicate Right(s: State, c: string, hash: Option<nat>, now: int, addr: string, sid: Id, epoch: nat)
  {
    && c in s.collections && AskedFor(s.collections[c].shards, hash, sid) && s.collections[c].shards[sid].epoch == epoch
    && s.collections[c].shards[sid].replicas != []
    && exists w :: Serves(s.workers, s.collections[c].shards[sid], w, now) && s.workers[w].grpcAddr == addr
  }

  ghost predicate Correct(s: State, c: string, hash: Option<nat>, now: int, a: Answer)
  {
    match a
    case Refuse(why) => Justified(s, c, hash, now, why)
    case Found(addr, sid, epoch) => c != "" && Right(s, c, hash, now, addr, sid, epoch)
  }

  lemma OneShardAsked(s: State, c: string, hash: Option<nat>, a: Id, b: Id)
    requires Inv(s) && c in s.collections && (hash.Some? ==> hash.value < TWO64)
    requires AskedFor(s.collections[c].shards, hash, a) && AskedFor(s.collections[c].shards, hash, b)
    ensures a == b
  {
  }

  lemma OneServes(ws: map<Id, Worker>, sh: Shard, v: Id, w: Id, now: int)
    requires Serves(ws, sh, v, now) && Serves(ws, sh, w, now)
    ensures v == w
  {
    if !(sh.leader != 0 && IsHealthy(ws, sh.leader, now)) {
      var j :| FirstHealthy(ws, sh.replicas, j, now) && sh.replicas[j] == v;
      var k :| FirstHealthy(ws, sh.replicas, k, now) && sh.replicas[k] == w;
    }
  }

  lemma ServedIsHealthy(ws: map<Id, Worker>, sh: Shard, w: Id, now: int)
    requires Serves(ws, sh, w, now)
    ensures w in sh.replicas + [sh.leader] && IsHealthy(ws, w, now)
  {
  }

  /** The driver's state, the hash and the clock leave only one answer. */
  lemma OneAnswer(s: State, c: string, hash: Option<nat>, now: int, a: Answer, b: Answer)
    requires Inv(s) && (hash.Some? ==> hash.value < TWO64)
    requires Correct(s, c, hash, now, a) && Correct(s, c, hash, now, b)
    ensures a == b
  {
    if c != "" && c in s.collections {
      forall x: Id, y: Id | AskedFor(s.collections[c].shards, hash, x) && AskedFor(s.collections[c].shards, hash, y)
        ensures x == y
      {
        OneShardAsked(s, c, hash, x, y);
      }
      forall x: Id, v, w | x in s.collections[c].shards && Serves(s.workers, s.collections[c].shards[x], v, now)
          && Serves(s.workers, s.collections[c].shards[x], w, now)
        ensures v == w && v in s.collections[c].shards[x].replicas + [s.collections[c].shards[x].leader]
      {
        OneServes(s.workers, s.collections[c].shards[x], v, w, now);
        ServedIsHealthy(s.workers, s.collections[c].shards[x], v, now);
      }
    }
  }

  /** In any good state, a collection that exists has the shard asked for, and the answer is that shard's epoch and its
      leader's address, or that of its first healthy replica; it is refused only where there is no such worker. */
  method GetWorker(ghost s: State, workers: map<Id, Worker>, collections: map<string, Collection>, order: seq<Id>,
                   c: string, hash: Option<nat>, now: int) returns (a: Answer)
    requires Inv(s) && s.workers == workers && s.collections == collections
    requires c in collections ==> ShardOrder(collections[c].shards, order)
    requires hash.Some? ==> hash.value < TWO64
    ensures Correct(s, c, hash, now, a)
  {
    if c == "" {
      return Refuse(NoCollectionName);
    }
    if c !in collections {
      return Refuse(NoSuchCollection);
    }
    var shards := collections[c].shards;
    assert Covered(shards, 0);
    if shards == map[] {
      return Refuse(NoShards);
    }
    var target: Option<Id> := None;
    match hash {
      case Some(key) =>
        target := LookupShard(shards, order, key);
      case None =>
        var low := LowestShard(shards);
        target := Some(low);
    }
    if target.None? {
      return Refuse(NoShardForHash);
    }
    var sh := shards[target.value];
    assert AskedFor(shards, hash, target.value);
    if |sh.replicas| == 0 {
      return Refuse(NoReplicas);
    }
    var w := ServingWorker(workers, sh, now);
    if w.None? {
      assert Unserved(s, c, target.value, now);
      return Refuse(NoHealthyReplica);
    }
    return Found(workers[w.value].grpcAddr, target.value, sh.epoch);
  }
}
