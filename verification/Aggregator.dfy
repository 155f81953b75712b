/** The gateway's search aggregator: a map of best entries and a heap that keeps stale items until they surface. */
module Aggregator {
  import opened Prelude
  import opened Ranking

  type Payload = map<string, string>

  datatype Result = Result(id: string, score: real, payload: Payload)

  datatype Entry = Entry(score: real, payload: Payload)

  datatype Agg = Agg(entries: map<string, Entry>, heap: multiset<Item>)

  const Empty: Agg := Agg(map[], multiset{})

  predicate Live(entries: map<string, Entry>, x: Item)
  {
    x.id in entries && entries[x.id].score == x.score
  }

  // ---------------------------------------------------------------- what the aggregator does

  /** Discard stale items while they are on top. */
  ghost function DropStale(entries: map<string, Entry>, heap: multiset<Item>): (r: multiset<Item>)
    ensures r <= heap && |r| <= |heap|
    decreases |heap|
  {
    if heap == multiset{} || Live(entries, Worst(heap)) then heap else DropStale(entries, heap - multiset{Worst(heap)})
  }

  ghost function Compact(limit: int, a: Agg): Agg
    decreases |a.heap|
  {
    if |a.heap| <= limit then a
    else
      var heap := DropStale(a.entries, a.heap);
      if |heap| <= limit || heap == multiset{} then a.(heap := heap)
      else
        var w := Worst(heap);
        Compact(limit, Agg(if Live(a.entries, w) then a.entries - {w.id} else a.entries, heap - multiset{w}))
  }

  /** Results without an identifier, and results no better than the entry held, are skipped. */
  predicate Skipped(a: Agg, r: Option<Result>)
  {
    r.None? || r.value.id == "" || (r.value.id in a.entries && r.value.score >= a.entries[r.value.id].score)
  }

  function Pushed(a: Agg, r: Result): Agg
  {
    Agg(a.entries[r.id := Entry(r.score, r.payload)], a.heap + multiset{Item(r.id, r.score)})
  }

  ghost function Add(limit: int, a: Agg, r: Option<Result>): Agg
  {
    if limit <= 0 || Skipped(a, r) then a else Compact(limit, Pushed(a, r.value))
  }

  ghost function AddAll(limit: int, a: Agg, rs: seq<Option<Result>>): Agg
  {
    if rs == [] then a else Add(limit, AddAll(limit, a, rs[..|rs| - 1]), rs[|rs| - 1])
  }

  // ---------------------------------------------------------------- the invariant

  /** Every heap item belongs to an entry and is no better than it; every entry has exactly one live item. */
  ghost predicate Linked(a: Agg)
  {
    && (forall x :: x in a.heap ==> x.id in a.entries && a.entries[x.id].score <= x.score)
    && (forall id :: id in a.entries ==> a.heap[Item(id, a.entries[id].score)] == 1)
  }

  ghost predicate Inv(limit: int, a: Agg)
  {
    Linked(a) && |a.heap| <= Max(limit, 0) && "" !in a.entries
  }

  ghost function LiveItems(entries: map<string, Entry>): set<Item>
  {
    set id | id in entries :: Item(id, entries[id].score)
  }

  lemma {:induction false} LiveCount(entries: map<string, Entry>)
    ensures |LiveItems(entries)| == |entries|
    decreases |entries|
  {
    if entries != map[] {
      var id :| id in entries;
      var rest := entries - {id};
      LiveCount(rest);
      assert entries.Keys == rest.Keys + {id} && forall x :: x in rest ==> rest[x] == entries[x];
      forall x
        ensures x in LiveItems(entries) <==> x in LiveItems(rest) || x == Item(id, entries[id].score)
      {
      }
      assert LiveItems(entries) == LiveItems(rest) + {Item(id, entries[id].score)};
    }
  }

  /** No more entries than heap items, and as many only when no heap item is stale. */
  lemma EntriesWithinHeap(a: Agg)
    requires Linked(a)
    ensures |a.entries| <= |a.heap|
    ensures |a.entries| == |a.heap| <==> forall x :: x in a.heap ==> Live(a.entries, x)
  {
    LiveCount(a.entries);
    var live := multiset(LiveItems(a.entries));
    assert live <= a.heap;
    assert a.heap == live + (a.heap - live);
    if |a.entries| == |a.heap| {
      assert a.heap - live == multiset{};
    } else {
      var x :| x in a.heap - live;
      assert a.heap[x] > live[x];
    }
  }

  lemma {:induction false} DropStaleKeeps(a: Agg)
    requires Linked(a)
    ensures Linked(a.(heap := DropStale(a.entries, a.heap)))
    decreases |a.heap|
  {
    if a.heap != multiset{} && !Live(a.entries, Worst(a.heap)) {
      DropStaleKeeps(a.(heap := a.heap - multiset{Worst(a.heap)}));
    }
  }

  lemma PushedLinked(a: Agg, r: Result)
    requires Linked(a) && !Skipped(a, Some(r))
    ensures Linked(Pushed(a, r)) && |Pushed(a, r).heap| == |a.heap| + 1
  {
  }

  /** Evicting the worst item while it is live takes its entry along, and no other item of that entry is left. */
  lemma EvictLinked(a: Agg)
    requires Linked(a) && a.heap != multiset{} && Live(a.entries, Worst(a.heap))
    ensures var w := Worst(a.heap); Linked(Agg(a.entries - {w.id}, a.heap - multiset{w}))
  {
  }

  /** What compaction does to a heap one item over the limit: a stale worst item goes, and any below it, or else the
      worst entry is evicted. */
  lemma CompactOne(limit: int, a: Agg)
    requires limit > 0 && Linked(a) && |a.heap| == limit + 1
    ensures var w := Worst(a.heap); var b := Compact(limit, a);
      && Linked(b) && |b.heap| <= limit
      && b.entries == if Live(a.entries, w) then a.entries - {w.id} else a.entries
  {
    var w := Worst(a.heap);
    DropStaleKeeps(a);
    if Live(a.entries, w) {
      EvictLinked(a);
    } else {
      assert DropStale(a.entries, a.heap) == DropStale(a.entries, a.heap - multiset{w});
    }
  }

  lemma AddEffect(limit: int, a: Agg, r: Option<Result>)
    requires Inv(limit, a)
    ensures Inv(limit, Add(limit, a, r))
    ensures Add(limit, a, r).entries ==
      if limit <= 0 || Skipped(a, r) then a.entries
      else if |a.heap| == limit && Live(Pushed(a, r.value).entries, Worst(Pushed(a, r.value).heap))
      then Pushed(a, r.value).entries - {Worst(Pushed(a, r.value).heap).id} else Pushed(a, r.value).entries
  {
    if limit > 0 && !Skipped(a, r) {
      PushedLinked(a, r.value);
      if |a.heap| == limit { CompactOne(limit, Pushed(a, r.value)); }
    }
  }

  /** Whatever is added, in any order: at most `limit` entries, each with exactly one live heap item. */
  lemma {:induction false} AddAllInv(limit: int, rs: seq<Option<Result>>)
    ensures Inv(limit, AddAll(limit, Empty, rs)) && |AddAll(limit, Empty, rs).entries| <= Max(limit, 0)
  {
    if rs != [] {
      AddAllInv(limit, rs[..|rs| - 1]);
      AddEffect(limit, AddAll(limit, Empty, rs[..|rs| - 1]), rs[|rs| - 1]);
    }
    EntriesWithinHeap(AddAll(limit, Empty, rs));
  }

  // ---------------------------------------------------------------- the reference: best score of every identifier

  function Better(d: map<string, real>, r: Option<Result>): map<string, real>
  {
    if r.None? || r.value.id == "" || (r.value.id in d && r.value.score >= d[r.value.id]) then d
    else d[r.value.id := r.value.score]
  }

  /** The best score each identifier was seen with. */
  function Best(rs: seq<Option<Result>>): map<string, real>
  {
    if rs == [] then map[] else Better(Best(rs[..|rs| - 1]), rs[|rs| - 1])
  }

  ghost predicate Above(d: map<string, real>, x: string, y: string)
  {
    x in d && y in d && Before(Item(x, d[x]), Item(y, d[y]))
  }

  ghost predicate AboveRest(e: map<string, Entry>, d: map<string, real>)
  {
    forall x, y {:trigger Above(d, x, y)} :: x in e && y in d && y !in e ==> Above(d, x, y)
  }

  ghost predicate SizedFor(limit: int, e: map<string, Entry>, d: map<string, real>)
  {
    |e| == Min(Max(limit, 0), |d|)
  }

  /** The entries are the `limit` best identifiers of `d`, each with its score there. */
  ghost predicate Exact(limit: int, e: map<string, Entry>, d: map<string, real>)
  {
    && (forall id :: id in e ==> id in d && e[id].score == d[id])
    && SizedFor(limit, e, d)
    && AboveRest(e, d)
  }

  /** Adding `r` evicts an entry although there is room for it: stale items fill the heap. */
  ghost predicate LosesEntry(limit: int, a: Agg, r: Option<Result>)
  {
    && limit > 0 && !Skipped(a, r) && |a.heap| == limit
    && var b := Pushed(a, r.value); Live(b.entries, Worst(b.heap)) && |b.entries| <= limit
  }

  // ---------------------------------------------------------------- when the aggregator is exact

  /** With every place taken nothing is stale, so the worst item is an entry's, or the new one. */
  lemma EvictionLive(limit: int, a: Agg, r: Result)
    requires Inv(limit, a) && limit > 0 && |a.entries| == limit && r.id !in a.entries
    ensures Live(Pushed(a, r).entries, Worst(Pushed(a, r).heap))
  {
    EntriesWithinHeap(a);
    var w := Worst(Pushed(a, r).heap);
    assert w in a.heap || w == Item(r.id, r.score);
  }

  /** The new identifier takes the place of the worst one. */
  lemma EvictionCount(limit: int, a: Agg, r: Result, d: map<string, real>)
    requires |a.entries| == limit && SizedFor(limit, a.entries, d) && a.entries.Keys <= d.Keys && r.id !in a.entries
    requires Live(Pushed(a, r).entries, Worst(Pushed(a, r).heap))
    ensures SizedFor(limit, Pushed(a, r).entries - {Worst(Pushed(a, r).heap).id}, d[r.id := r.score])
  {
    var b, d' := Pushed(a, r), d[r.id := r.score];
    var w := Worst(b.heap);
    var e := b.entries - {w.id};
    assert b.entries.Keys == a.entries.Keys + {r.id};
    assert e.Keys == b.entries.Keys - {w.id};
    EvictionSizes(a.entries, d, r.id, w.id, e, d');
  }

  /** An identifier not held displaces the worst entry, itself perhaps, when all `limit` are taken. */
  lemma EvictionExact(limit: int, a: Agg, r: Result, d: map<string, real>)
    requires Inv(limit, a) && Exact(limit, a.entries, d) && limit > 0 && |a.entries| == limit && r.id !in a.entries
    requires r.id in d ==> r.score < d[r.id]
    ensures var b := Pushed(a, r); var w := Worst(b.heap);
      Live(b.entries, w) && Exact(limit, b.entries - {w.id}, d[r.id := r.score])
  {
    EvictionLive(limit, a, r);
    EvictionCount(limit, a, r, d);
    EvictionRest(a, r, d);
  }

  lemma EvictionRest(a: Agg, r: Result, d: map<string, real>)
    requires Linked(a) && AboveRest(a.entries, d) && r.id !in a.entries
    requires forall id :: id in a.entries ==> id in d && a.entries[id].score == d[id]
    requires Live(Pushed(a, r).entries, Worst(Pushed(a, r).heap))
    ensures AboveRest(Pushed(a, r).entries - {Worst(Pushed(a, r).heap).id}, d[r.id := r.score])
  {
    var b, d' := Pushed(a, r), d[r.id := r.score];
    var e := b.entries - {Worst(b.heap).id};
    forall x, y | x in e && y in d' && y !in e
      ensures Above(d', x, y)
    {
      EvictionOrder(a, r, d, x, y);
    }
  }

  lemma EvictionOrder(a: Agg, r: Result, d: map<string, real>, x: string, y: string)
    requires Linked(a) && AboveRest(a.entries, d) && r.id !in a.entries
    requires forall id :: id in a.entries ==> id in d && a.entries[id].score == d[id]
    requires var b := Pushed(a, r); var w := Worst(b.heap);
      Live(b.entries, w) && x in b.entries && x != w.id && y in d[r.id := r.score] && (y == w.id || y !in b.entries)
    ensures Above(d[r.id := r.score], x, y)
  {
    var d' := d[r.id := r.score];
    var w := Worst(Pushed(a, r).heap);
    var i, j := Item(x, d'[x]), Item(y, d'[y]);
    assert i in Pushed(a, r).heap && i != w && Before(i, w);
    if y != w.id {
      if x == r.id {
        assert Above(d, w.id, y);
        BeforeTransitive(i, w, j);
      } else {
        assert Above(d, x, y);
      }
    }
  }

  lemma EvictionSizes(held: map<string, Entry>, d: map<string, real>, id: string, worst: string, e: map<string, Entry>, d': map<string, real>)
    requires id !in held && e.Keys == held.Keys + {id} - {worst} && worst in held.Keys + {id} && d'.Keys == d.Keys + {id}
    requires held.Keys <= d.Keys
    ensures |e| == |held| && |d'| >= |e|
  {
    assert |held.Keys + {id}| == |held| + 1;
    assert held.Keys + {id} == e.Keys + {worst};
    SubsetCard(e.Keys, d'.Keys);
  }

  /** An identifier evicted before, seen again with a score no better than its best, is evicted at once. */
  lemma SeenAgainExact(limit: int, a: Agg, r: Result, d: map<string, real>)
    requires Inv(limit, a) && Exact(limit, a.entries, d) && limit > 0 && r.id !in a.entries
    requires r.id in d && r.score >= d[r.id]
    ensures |a.entries| == limit && Worst(Pushed(a, r).heap) == Item(r.id, r.score)
  {
    var x := Item(r.id, r.score);
    if |a.entries| == |d| {
      SubsetSameCard(a.entries.Keys, d.Keys);
      assert false;
    }
    EntriesWithinHeap(a);
    forall y | y in a.heap
      ensures Before(y, x)
    {
      assert Live(a.entries, y) && Above(d, y.id, r.id);
    }
    WorstUnique(Pushed(a, r).heap, x, Worst(Pushed(a, r).heap));
  }

  /** Where there is room, every identifier seen is held. */
  lemma RoomExact(limit: int, e: map<string, Entry>, r: Result, d: map<string, real>)
    requires Exact(limit, e, d) && limit > 0 && r.id !in e && |e| < limit
    ensures r.id !in d && Exact(limit, e[r.id := Entry(r.score, r.payload)], d[r.id := r.score])
  {
    SubsetSameCard(e.Keys, d.Keys);
    var e', d' := e[r.id := Entry(r.score, r.payload)], d[r.id := r.score];
    assert e'.Keys == d'.Keys;
    assert |e'.Keys| == |e.Keys + {r.id}| == |e.Keys| + 1;
    assert |d'| == |d'.Keys| == |e'.Keys|;
  }

  lemma BetterExact(limit: int, e: map<string, Entry>, r: Result, d: map<string, real>)
    requires Exact(limit, e, d) && r.id in e && r.score < e[r.id].score
    ensures Exact(limit, e[r.id := Entry(r.score, r.payload)], d[r.id := r.score])
  {
    var e', d' := e[r.id := Entry(r.score, r.payload)], d[r.id := r.score];
    assert e'.Keys == e.Keys && d'.Keys == d.Keys;
    forall x, y | x in e' && y in d' && y !in e'
      ensures Above(d', x, y)
    {
      assert Above(d, x, y);
    }
  }

  lemma TooFewNotExact(limit: int, e: map<string, Entry>, d: map<string, real>, id: string)
    requires |e| < limit && id in d && id !in e
    ensures !Exact(limit, e, d)
  {
    if Exact(limit, e, d) { SubsetSameCard(e.Keys, d.Keys); }
  }

  lemma LossNotExact(limit: int, a: Agg, r: Option<Result>, d: map<string, real>)
    requires Inv(limit, a) && Exact(limit, a.entries, d) && LosesEntry(limit, a, r)
    ensures !Exact(limit, Add(limit, a, r).entries, Better(d, r))
  {
    AddEffect(limit, a, r);
    var b := Pushed(a, r.value);
    var w := Worst(b.heap);
    var e := Add(limit, a, r).entries;
    assert e == b.entries - {w.id} && b.entries.Keys == e.Keys + {w.id};
    assert |b.entries.Keys| == |e.Keys| + 1;
    TooFewNotExact(limit, e, Better(d, r), w.id);
  }

  /** An identifier not held, when every place is taken. */
  lemma FullExact(limit: int, a: Agg, r: Result, d: map<string, real>)
    requires Inv(limit, a) && Exact(limit, a.entries, d) && limit > 0 && |a.entries| == limit && r.id !in a.entries && r.id != ""
    ensures Exact(limit, Add(limit, a, Some(r)).entries, Better(d, Some(r)))
  {
    AddEffect(limit, a, Some(r));
    EntriesWithinHeap(a);
    if r.id in d && r.score >= d[r.id] {
      SeenAgainExact(limit, a, r, d);
      assert Pushed(a, r).entries - {r.id} == a.entries;
    } else {
      EvictionExact(limit, a, r, d);
    }
  }

  /** Without a loss, an identifier that finds room evicts nothing. */
  lemma FreeKeeps(limit: int, a: Agg, r: Result)
    requires Inv(limit, a) && limit > 0 && |a.entries| < limit && r.id !in a.entries && r.id != ""
    requires !LosesEntry(limit, a, Some(r))
    ensures Add(limit, a, Some(r)).entries == Pushed(a, r).entries
  {
    AddEffect(limit, a, Some(r));
    assert Pushed(a, r).entries.Keys == a.entries.Keys + {r.id};
    assert |Pushed(a, r).entries.Keys| == |a.entries.Keys| + 1;
  }

  lemma NoLossExact(limit: int, a: Agg, r: Option<Result>, d: map<string, real>)
    requires Inv(limit, a) && Exact(limit, a.entries, d) && !LosesEntry(limit, a, r)
    ensures Exact(limit, Add(limit, a, r).entries, Better(d, r))
  {
    if limit > 0 && !Skipped(a, r) {
      if r.value.id in a.entries {
        BetterExact(limit, a.entries, r.value, d);
      } else if |a.entries| < limit {
        FreeKeeps(limit, a, r.value);
        RoomExact(limit, a.entries, r.value, d);
      } else {
        FullExact(limit, a, r.value, d);
      }
    }
  }

  ghost predicate ExactAt(limit: int, rs: seq<Option<Result>>, n: nat)
  {
    n <= |rs| ==> Exact(limit, AddAll(limit, Empty, rs[..n]).entries, Best(rs[..n]))
  }

  ghost predicate LossAt(limit: int, rs: seq<Option<Result>>, n: nat)
  {
    n < |rs| && LosesEntry(limit, AddAll(limit, Empty, rs[..n]), rs[n])
  }

  lemma StepExactIff(limit: int, rs: seq<Option<Result>>, n: nat)
    requires n < |rs| && ExactAt(limit, rs, n)
    ensures ExactAt(limit, rs, n + 1) <==> !LossAt(limit, rs, n)
  {
    var a := AddAll(limit, Empty, rs[..n]);
    AddAllInv(limit, rs[..n]);
    assert rs[..n + 1][..n] == rs[..n];
    if LossAt(limit, rs, n) {
      LossNotExact(limit, a, rs[n], Best(rs[..n]));
    } else {
      NoLossExact(limit, a, rs[n], Best(rs[..n]));
    }
  }

  lemma {:induction false} NoLossUpTo(limit: int, rs: seq<Option<Result>>, n: nat)
    requires forall k: nat :: k < n ==> !LossAt(limit, rs, k)
    ensures ExactAt(limit, rs, n)
  {
    if 0 < n <= |rs| {
      NoLossUpTo(limit, rs, n - 1);
      StepExactIff(limit, rs, n - 1);
    }
  }

  /** The aggregator holds the best `limit` identifiers, each with its best score, after every result added, if and only
      if no step evicts an entry for which there was room. */
  lemma ExactIffNoLoss(limit: int, rs: seq<Option<Result>>)
    ensures (forall n: nat :: ExactAt(limit, rs, n)) <==> (forall n: nat :: !LossAt(limit, rs, n))
  {
    if forall n: nat :: !LossAt(limit, rs, n) {
      forall n: nat
        ensures ExactAt(limit, rs, n)
      {
        NoLossUpTo(limit, rs, n);
      }
    } else {
      var n: nat :| LossAt(limit, rs, n);
      if ExactAt(limit, rs, n) { StepExactIff(limit, rs, n); }
    }
  }

  // ---------------------------------------------------------------- identifiers that never improve

  /** The result at one place is for the identifier. */
  ghost predicate IsFor(rs: seq<Option<Result>>, k: nat, id: string)
  {
    k < |rs| && rs[k].Some? && rs[k].value.id == id != ""
  }

  /** No identifier is seen again with a better score. */
  ghost predicate NeverImproves(rs: seq<Option<Result>>)
  {
    forall i: nat, j: nat, id {:trigger IsFor(rs, i, id), IsFor(rs, j, id)} :: i < j && IsFor(rs, i, id) && IsFor(rs, j, id) ==>
      rs[j].value.score >= rs[i].value.score
  }

  ghost predicate Seen(rs: seq<Option<Result>>, id: string)
  {
    exists k: nat :: IsFor(rs, k, id)
  }

  ghost predicate SeenWith(rs: seq<Option<Result>>, id: string, score: real)
  {
    exists k: nat :: IsFor(rs, k, id) && rs[k].value.score == score
  }

  /** A result with just this identifier, score and payload has been added. */
  ghost predicate SeenAs(rs: seq<Option<Result>>, r: Result)
  {
    exists k: nat :: k < |rs| && rs[k] == Some(r)
  }

  lemma SeenGrows(rs: seq<Option<Result>>, r: Option<Result>, id: string, score: real)
    ensures SeenWith(rs + [r], id, score) <==> SeenWith(rs, id, score) || (r.Some? && r.value.id == id != "" && r.value.score == score)
    ensures Seen(rs + [r], id) <==> Seen(rs, id) || (r.Some? && r.value.id == id != "")
  {
    var rs' := rs + [r];
    assert forall k: nat :: k < |rs| ==> (IsFor(rs', k, id) <==> IsFor(rs, k, id));
    assert IsFor(rs', |rs|, id) <==> r.Some? && r.value.id == id != "";
    if k: nat :| IsFor(rs, k, id) && rs[k].value.score == score { assert IsFor(rs', k, id); }
    if k: nat :| IsFor(rs, k, id) { assert IsFor(rs', k, id); }
  }

  /** An entry was there before, with its score, or is the result added. */
  lemma AddDraws(limit: int, a: Agg, r: Option<Result>, id: string)
    requires Inv(limit, a) && id in Add(limit, a, r).entries
    ensures var score := Add(limit, a, r).entries[id].score;
      || (id in a.entries && a.entries[id].score == score)
      || (r.Some? && r.value.id == id != "" && r.value.score == score)
  {
    AddEffect(limit, a, r);
  }

  /** Every entry has a score its identifier was seen with. */
  lemma {:induction false} EntriesSeen(limit: int, rs: seq<Option<Result>>, id: string)
    requires id in AddAll(limit, Empty, rs).entries
    ensures SeenWith(rs, id, AddAll(limit, Empty, rs).entries[id].score)
  {
    if rs != [] {
      var front, r := rs[..|rs| - 1], rs[|rs| - 1];
      AddAllInv(limit, front);
      AddDraws(limit, AddAll(limit, Empty, front), r, id);
      if id in AddAll(limit, Empty, front).entries { EntriesSeen(limit, front, id); }
      SeenGrows(front, r, id, AddAll(limit, Empty, rs).entries[id].score);
      assert rs == front + [r];
    }
  }

  lemma AddDrawsPayload(limit: int, a: Agg, r: Option<Result>, id: string)
    requires Inv(limit, a) && id in Add(limit, a, r).entries
    ensures var e := Add(limit, a, r).entries[id];
      (id in a.entries && a.entries[id] == e) || (id != "" && r == Some(Result(id, e.score, e.payload)))
  {
    AddEffect(limit, a, r);
  }

  /** An entry is one of the results added: its payload came with its identifier and its score. */
  lemma {:induction false} EntriesAreResults(limit: int, rs: seq<Option<Result>>, id: string)
    requires id in AddAll(limit, Empty, rs).entries
    ensures var e := AddAll(limit, Empty, rs).entries[id]; SeenAs(rs, Result(id, e.score, e.payload))
  {
    if rs != [] {
      var front, r := rs[..|rs| - 1], rs[|rs| - 1];
      var e := AddAll(limit, Empty, rs).entries[id];
      AddAllInv(limit, front);
      AddDrawsPayload(limit, AddAll(limit, Empty, front), r, id);
      if id in AddAll(limit, Empty, front).entries && AddAll(limit, Empty, front).entries[id] == e {
        EntriesAreResults(limit, front, id);
        var k: nat :| k < |front| && front[k] == Some(Result(id, e.score, e.payload));
        assert rs[k] == front[k];
      } else {
        assert rs[|front|] == Some(Result(id, e.score, e.payload));
      }
    }
  }

  lemma AllLiveCompact(limit: int, a: Agg)
    requires limit > 0 && Linked(a) && |a.heap| == limit + 1 && |a.entries| == |a.heap|
    ensures var w := Worst(a.heap); Compact(limit, a) == Agg(a.entries - {w.id}, a.heap - multiset{w})
    ensures |Compact(limit, a).heap| == |Compact(limit, a).entries| == limit
  {
    EntriesWithinHeap(a);
    var w := Worst(a.heap);
    assert DropStale(a.entries, a.heap) == a.heap;
    assert a.entries.Keys == (a.entries - {w.id}).Keys + {w.id};
    assert |a.entries.Keys| == |(a.entries - {w.id}).Keys| + 1;
  }

  /** A result that does not improve an entry adds no stale item, and costs no entry its place. */
  lemma SteadyStep(limit: int, a: Agg, r: Option<Result>)
    requires Inv(limit, a) && |a.heap| == |a.entries|
    requires r.Some? && r.value.id in a.entries ==> r.value.score >= a.entries[r.value.id].score
    ensures |Add(limit, a, r).heap| == |Add(limit, a, r).entries| && !LosesEntry(limit, a, r)
  {
    if limit > 0 && !Skipped(a, r) {
      var b := Pushed(a, r.value);
      PushedLinked(a, r.value);
      assert b.entries.Keys == a.entries.Keys + {r.value.id};
      assert |b.entries.Keys| == |a.entries.Keys| + 1;
      if |a.heap| == limit { AllLiveCompact(limit, b); }
    }
  }

  lemma NotImproved(limit: int, rs: seq<Option<Result>>, n: nat)
    requires NeverImproves(rs) && n < |rs|
    ensures var a := AddAll(limit, Empty, rs[..n]);
      rs[n].Some? && rs[n].value.id in a.entries ==> rs[n].value.score >= a.entries[rs[n].value.id].score
  {
    var a := AddAll(limit, Empty, rs[..n]);
    if rs[n].Some? && rs[n].value.id in a.entries {
      var id := rs[n].value.id;
      EntriesSeen(limit, rs[..n], id);
      var k: nat :| IsFor(rs[..n], k, id) && rs[..n][k].value.score == a.entries[id].score;
      assert IsFor(rs, k, id) && IsFor(rs, n, id);
    }
  }

  /** While no identifier improves, no heap item is ever stale. */
  lemma {:induction false} NeverStale(limit: int, rs: seq<Option<Result>>, n: nat)
    requires NeverImproves(rs) && n <= |rs|
    ensures var a := AddAll(limit, Empty, rs[..n]); |a.heap| == |a.entries|
  {
    if n > 0 {
      NeverStale(limit, rs, n - 1);
      AddAllInv(limit, rs[..n - 1]);
      NotImproved(limit, rs, n - 1);
      SteadyStep(limit, AddAll(limit, Empty, rs[..n - 1]), rs[n - 1]);
      assert rs[..n][..n - 1] == rs[..n - 1];
    }
  }

  /** While no identifier is seen again with a better score, the entries are the best `limit` of all identifiers seen,
      including those evicted and seen again. */
  lemma NeverImprovesExact(limit: int, rs: seq<Option<Result>>)
    requires NeverImproves(rs)
    ensures Exact(limit, AddAll(limit, Empty, rs).entries, Best(rs))
  {
    forall n: nat
      ensures !LossAt(limit, rs, n)
    {
      if n < |rs| {
        NeverStale(limit, rs, n);
        AddAllInv(limit, rs[..n]);
        NotImproved(limit, rs, n);
        SteadyStep(limit, AddAll(limit, Empty, rs[..n]), rs[n]);
      }
    }
    NoLossUpTo(limit, rs, |rs|);
    assert rs[..|rs|] == rs;
  }

  /** `Best` holds just the identifiers seen, each with the lowest score it was seen with. */
  lemma {:induction false} BestIsLowest(rs: seq<Option<Result>>)
    ensures forall id :: id in Best(rs) <==> Seen(rs, id)
    ensures forall id :: id in Best(rs) ==> SeenWith(rs, id, Best(rs)[id])
    ensures forall k: nat, id {:trigger IsFor(rs, k, id)} :: IsFor(rs, k, id) ==> id in Best(rs) && Best(rs)[id] <= rs[k].value.score
  {
    if rs != [] {
      var front, r := rs[..|rs| - 1], rs[|rs| - 1];
      BestIsLowest(front);
      assert rs == front + [r];
      forall id
        ensures id in Best(rs) <==> Seen(rs, id)
        ensures id in Best(rs) ==> SeenWith(rs, id, Best(rs)[id])
      {
        if id in Best(rs) { SeenGrows(front, r, id, Best(rs)[id]); } else { SeenGrows(front, r, id, 0.0); }
      }
      forall k: nat, id | IsFor(rs, k, id)
        ensures id in Best(rs) && Best(rs)[id] <= rs[k].value.score
      {
        if k < |front| { assert IsFor(front, k, id); }
      }
    }
  }

  // ---------------------------------------------------------------- one score for each identifier

  /** Every identifier carries one score wherever it is seen. */
  ghost predicate Uniform(rs: seq<Option<Result>>, score: string -> real)
  {
    forall k: nat, id {:trigger IsFor(rs, k, id)} :: IsFor(rs, k, id) ==> rs[k].value.score == score(id)
  }

  /** With one score for each identifier, the entries are the best `limit` of all identifiers seen. */
  lemma UniformExact(limit: int, rs: seq<Option<Result>>, score: string -> real)
    requires Uniform(rs, score)
    ensures Exact(limit, AddAll(limit, Empty, rs).entries, Best(rs))
    ensures forall id :: (id in Best(rs) <==> Seen(rs, id)) && (id in Best(rs) ==> Best(rs)[id] == score(id))
  {
    NeverImprovesExact(limit, rs);
    BestIsLowest(rs);
  }

  lemma ExactUnique(limit: int, e: map<string, Entry>, f: map<string, Entry>, d: map<string, real>)
    requires Exact(limit, e, d) && Exact(limit, f, d)
    ensures e.Keys == f.Keys
  {
    if !(e.Keys <= f.Keys) {
      var x :| x in e && x !in f;
      if f.Keys <= e.Keys { SubsetSameCard(f.Keys, e.Keys); }
      var y :| y in f && y !in e;
      assert Above(d, x, y) && Above(d, y, x);
      BeforeTotal(Item(x, d[x]), Item(y, d[y]));
      assert false;
    }
    SubsetSameCard(e.Keys, f.Keys);
  }

  /** Which identifiers are held, and with which scores, depends neither on the order of the results nor on how they are
      split into batches or repeated: only on the identifiers seen. */
  lemma OrderDoesNotMatter(limit: int, rs: seq<Option<Result>>, qs: seq<Option<Result>>, score: string -> real)
    requires Uniform(rs, score) && Uniform(qs, score) && forall id :: Seen(rs, id) <==> Seen(qs, id)
    ensures var e, f := AddAll(limit, Empty, rs).entries, AddAll(limit, Empty, qs).entries;
      e.Keys == f.Keys && forall id :: id in e ==> e[id].score == f[id].score
  {
    UniformExact(limit, rs, score);
    UniformExact(limit, qs, score);
    assert Best(rs) == Best(qs);
    ExactUnique(limit, AddAll(limit, Empty, rs).entries, AddAll(limit, Empty, qs).entries, Best(rs));
  }

  // ---------------------------------------------------------------- an identifier that improves can cost another its place

  lemma {:induction false} CompactShrinks(limit: int, a: Agg)
    ensures |Compact(limit, a).heap| <= |a.heap|
    decreases |a.heap|
  {
    if |a.heap| > limit {
      var heap := DropStale(a.entries, a.heap);
      if |heap| > limit && heap != multiset{} {
        var w := Worst(heap);
        CompactShrinks(limit, Agg(if Live(a.entries, w) then a.entries - {w.id} else a.entries, heap - multiset{w}));
      }
    }
  }

  lemma {:induction false} HeapWithinInput(limit: int, rs: seq<Option<Result>>)
    ensures |AddAll(limit, Empty, rs).heap| <= |rs|
  {
    if rs != [] {
      var front, r := rs[..|rs| - 1], rs[|rs| - 1];
      HeapWithinInput(limit, front);
      var a := AddAll(limit, Empty, front);
      if limit > 0 && !Skipped(a, r) { CompactShrinks(limit, Pushed(a, r.value)); }
    }
  }

  /** The first `limit` results lose nothing. */
  lemma EarlyExact(limit: int, rs: seq<Option<Result>>, n: nat)
    requires n <= limit
    ensures ExactAt(limit, rs, n)
  {
    forall k: nat | k < n
      ensures !LossAt(limit, rs, k)
    {
      if k < |rs| { HeapWithinInput(limit, rs[..k]); }
    }
    NoLossUpTo(limit, rs, n);
  }

  lemma TwoAdded(limit: int, r0: Result, r1: Result)
    requires limit >= 2 && r0.id != "" && r1.id != "" && r0.id != r1.id
    ensures AddAll(limit, Empty, [Some(r0), Some(r1)]) == Pushed(Pushed(Empty, r0), r1)
  {
    var rs := [Some(r0), Some(r1)];
    assert rs[..1] == [Some(r0)] && rs[..1][..0] == [];
    assert AddAll(limit, Empty, rs[..1]) == Pushed(Empty, r0);
  }

  /** Limit two, and A with score 4, B with 5, A again with 3: A's stale item fills the heap and B is evicted. */
  lemma ImprovementLosesEntry()
    ensures var rs := [Some(Result("a", 4.0, map[])), Some(Result("b", 5.0, map[])), Some(Result("a", 3.0, map[]))];
      LossAt(2, rs, 2) && !ExactAt(2, rs, 3)
  {
    var r0, r1, r2 := Result("a", 4.0, map[]), Result("b", 5.0, map[]), Result("a", 3.0, map[]);
    var rs := [Some(r0), Some(r1), Some(r2)];
    assert rs[..2] == [Some(r0), Some(r1)];
    TwoAdded(2, r0, r1);
    var b := Pushed(AddAll(2, Empty, rs[..2]), r2);
    assert b.heap == multiset{Item("a", 4.0), Item("b", 5.0), Item("a", 3.0)};
    WorstUnique(b.heap, Item("b", 5.0), Worst(b.heap));
    assert b.entries.Keys == {"a", "b"};
    assert LossAt(2, rs, 2);
    EarlyExact(2, rs, 2);
    StepExactIff(2, rs, 2);
  }
}
