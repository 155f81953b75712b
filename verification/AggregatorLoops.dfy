/** The aggregator updated in place, and the snapshot it gives. */
module AggregatorLoops {
  import opened Prelude
  import opened Ranking
  import opened Aggregator

  function ItemOf(r: Result): Item
  {
    Item(r.id, r.score)
  }

  ghost predicate Ascending(rs: seq<Result>)
  {
    forall i, j :: 0 <= i < j < |rs| ==> Before(ItemOf(rs[i]), ItemOf(rs[j]))
  }

  ghost predicate Lists(rs: seq<Result>, id: string)
  {
    exists i :: 0 <= i < |rs| && rs[i].id == id
  }

  /** In order, the first `k` identifiers of `d`, each with its score there. */
  ghost predicate FirstOf(rs: seq<Result>, k: int, d: map<string, real>)
  {
    && Ascending(rs) && |rs| == Min(Max(k, 0), |d|)
    && (forall i :: 0 <= i < |rs| ==> rs[i].id in d && rs[i].score == d[rs[i].id])
    && forall i, y {:trigger Above(d, rs[i].id, y)} :: 0 <= i < |rs| && y in d && !Lists(rs, y) ==> Above(d, rs[i].id, y)
  }

  function Scores(e: map<string, Entry>): map<string, real>
  {
    map id | id in e :: e[id].score
  }

  // ---------------------------------------------------------------- sorting

  lemma AscendingInsert(rs: seq<Result>, k: nat, r: Result)
    requires Ascending(rs) && k <= |rs|
    requires forall i :: 0 <= i < k ==> Before(ItemOf(rs[i]), ItemOf(r))
    requires forall i :: k <= i < |rs| ==> Before(ItemOf(r), ItemOf(rs[i]))
    ensures Ascending(rs[..k] + [r] + rs[k..])
    ensures multiset(rs[..k] + [r] + rs[k..]) == multiset(rs) + multiset{r}
  {
    assert rs == rs[..k] + rs[k..];
  }

  ghost predicate IdsDistinct(rs: seq<Result>)
  {
    forall i, j :: 0 <= i < j < |rs| ==> rs[i].id != rs[j].id
  }

  /** Sorts results with distinct identifiers by score, then identifier. */
  method SortResults(rs: seq<Result>) returns (sorted: seq<Result>)
    requires IdsDistinct(rs)
    ensures Ascending(sorted) && multiset(sorted) == multiset(rs)
  {
    sorted := [];
    for n := 0 to |rs|
      invariant Ascending(sorted) && multiset(sorted) == multiset(rs[..n])
    {
      assert rs[..n + 1] == rs[..n] + [rs[n]];
      var k := 0;
      while k < |sorted| && Before(ItemOf(sorted[k]), ItemOf(rs[n]))
        invariant 0 <= k <= |sorted| && forall i :: 0 <= i < k ==> Before(ItemOf(sorted[i]), ItemOf(rs[n]))
      {
        k := k + 1;
      }
      forall i | k <= i < |sorted|
        ensures Before(ItemOf(rs[n]), ItemOf(sorted[i]))
      {
        InsertionOrder(rs, n, sorted, k, i);
      }
      AscendingInsert(sorted, k, rs[n]);
      sorted := sorted[..k] + [rs[n]] + sorted[k..];
    }
    assert rs[..|rs|] == rs;
  }

  lemma InsertionOrder(rs: seq<Result>, n: nat, sorted: seq<Result>, k: nat, i: nat)
    requires IdsDistinct(rs) && n < |rs| && multiset(sorted) == multiset(rs[..n]) && Ascending(sorted)
    requires k <= i < |sorted| && !Before(ItemOf(sorted[k]), ItemOf(rs[n]))
    ensures Before(ItemOf(rs[n]), ItemOf(sorted[i]))
  {
    var r := rs[n];
    assert sorted[k] in multiset(rs[..n]);
    var j :| 0 <= j < n && rs[j] == sorted[k];
    assert rs[j].id != rs[n].id;
    BeforeTotal(ItemOf(r), ItemOf(sorted[k]));
    if k < i { BeforeTransitive(ItemOf(r), ItemOf(sorted[k]), ItemOf(sorted[i])); }
  }

  // ---------------------------------------------------------------- the aggregator

  class SearchAggregator {
    var limit: int
    var entries: map<string, Entry>
    var heap: multiset<Item>

    ghost function Abs(): Agg
      reads this
    {
      Agg(entries, heap)
    }

    constructor (limit: int)
      ensures this.limit == limit && Abs() == Empty
    {
      this.limit, entries, heap := limit, map[], multiset{};
    }

    method Reset(limit: int)
      modifies this
      ensures this.limit == limit && Abs() == Empty
    {
      this.limit, entries, heap := limit, map[], multiset{};
    }

    /** The item on top. */
    method Top() returns (x: Item)
      requires heap != multiset{}
      ensures x == Worst(heap)
    {
      WorstExists(heap);
      x :| x in heap && forall y :: y in heap ==> y == x || Before(y, x);
      WorstUnique(heap, x, Worst(heap));
    }

    method Pop() returns (x: Item)
      requires heap != multiset{}
      modifies this`heap
      ensures x == Worst(old(heap)) && heap == old(heap) - multiset{x}
    {
      x := Top();
      heap := heap - multiset{x};
    }

    method DiscardStale()
      modifies this`heap
      ensures heap == DropStale(entries, old(heap))
    {
      ghost var goal := DropStale(entries, heap);
      while |heap| > 0
        invariant goal == DropStale(entries, heap)
        decreases |heap|
      {
        var x := Top();
        if x.id in entries && entries[x.id].score == x.score {
          break;
        }
        var _ := Pop();
      }
    }

    method CompactHeap()
      modifies this
      ensures limit == old(limit) && Abs() == if limit <= 0 then old(Abs()) else Compact(limit, old(Abs()))
    {
      if limit <= 0 {
        return;
      }
      ghost var goal := Compact(limit, Abs());
      while |heap| > limit
        invariant goal == Compact(limit, Abs()) && limit == old(limit) > 0
        decreases |heap|
      {
        DiscardStale();
        if |heap| <= limit {
          break;
        }
        EvictTop();
      }
    }

    method EvictTop()
      requires heap != multiset{}
      modifies this`heap, this`entries
      ensures var w := Worst(old(heap));
        Abs() == Agg(if Live(old(entries), w) then old(entries) - {w.id} else old(entries), old(heap) - multiset{w})
    {
      var x := Pop();
      if x.id in entries && entries[x.id].score == x.score {
        entries := entries - {x.id};
      }
    }

    method AddOne(result: Option<Result>)
      requires limit > 0
      modifies this
      ensures limit == old(limit) && Abs() == Add(limit, old(Abs()), result)
    {
      if result.None? || result.value.id == "" {
        return;
      }
      var r := result.value;
      if r.id in entries && !(r.score < entries[r.id].score) {
        return;
      }
      entries := entries[r.id := Entry(r.score, r.payload)];
      heap := heap + multiset{Item(r.id, r.score)};
      CompactHeap();
    }

    /** Adding results one by one does what adding means. */
    method AddResults(results: seq<Option<Result>>)
      modifies this
      ensures limit == old(limit) && Abs() == AddAll(limit, old(Abs()), results)
    {
      ghost var a := Abs();
      if limit <= 0 {
        NothingAdded(limit, a, results);
        return;
      }
      for k := 0 to |results|
        invariant limit == old(limit) && Abs() == AddAll(limit, a, results[..k])
      {
        assert results[..k + 1][..k] == results[..k];
        AddOne(results[k]);
      }
      assert results[..|results|] == results;
    }

    /** The entries, sorted and cut: the first `k` of what is held. */
    method Snapshot(k: int) returns (results: seq<Result>)
      requires Linked(Abs())
      ensures FirstOf(results, k, Scores(entries))
      ensures forall i :: 0 <= i < |results| ==> entries[results[i].id].payload == results[i].payload
    {
      if k <= 0 || |entries| == 0 {
        return [];
      }
      var found := [];
      var rest := heap;
      while rest != multiset{}
        invariant rest <= heap && Collected(entries, rest, found)
        decreases |rest|
      {
        var x :| x in rest;
        if x.id in entries && entries[x.id].score == x.score {
          CollectedLive(Abs(), rest, x, found);
          found := found + [Result(x.id, x.score, entries[x.id].payload)];
        } else {
          CollectedStale(Abs(), rest, x, found);
        }
        rest := rest - multiset{x};
      }
      var sorted := SortResults(found);
      SortedCollected(entries, found, sorted);
      CutIsFirst(sorted, entries, k);
      results := if |sorted| > k then sorted[..k] else sorted;
    }
  }

  lemma ListsMore(found: seq<Result>, r: Result)
    ensures forall id :: Lists(found + [r], id) <==> Lists(found, id) || id == r.id
  {
    var found' := found + [r];
    forall id
      ensures Lists(found', id) <==> Lists(found, id) || id == r.id
    {
      if Lists(found, id) {
        var i :| 0 <= i < |found| && found[i].id == id;
        assert found'[i].id == id;
      }
      assert found'[|found|] == r;
    }
  }

  /** Looking at a stale item. */
  lemma CollectedStale(a: Agg, rest: multiset<Item>, x: Item, found: seq<Result>)
    requires Collected(a.entries, rest, found) && x in rest && !Live(a.entries, x)
    ensures Collected(a.entries, rest - multiset{x}, found)
  {
  }

  /** Looking at a live item, the only one of its entry. */
  lemma CollectedLive(a: Agg, rest: multiset<Item>, x: Item, found: seq<Result>)
    requires Linked(a) && rest <= a.heap && Collected(a.entries, rest, found) && x in rest && Live(a.entries, x)
    ensures Collected(a.entries, rest - multiset{x}, found + [Result(x.id, x.score, a.entries[x.id].payload)])
  {
    assert a.heap[x] == 1 && rest[x] <= a.heap[x];
    CollectedMore(a.entries, rest, x, found);
  }

  lemma CollectedMore(e: map<string, Entry>, rest: multiset<Item>, x: Item, found: seq<Result>)
    requires Collected(e, rest, found) && rest[x] == 1 && Live(e, x)
    ensures Collected(e, rest - multiset{x}, found + [Result(x.id, x.score, e[x.id].payload)])
  {
    var r := Result(x.id, x.score, e[x.id].payload);
    ListsMore(found, r);
    forall i | 0 <= i < |found|
      ensures found[i].id != x.id
    {
      assert ItemOf(found[i]) !in rest;
    }
    forall id | id in e && Item(id, e[id].score) !in rest - multiset{x}
      ensures Lists(found + [r], id)
    {
      if id != x.id { assert Item(id, e[id].score) !in rest; }
    }
  }

  ghost predicate Complete(rs: seq<Result>, e: map<string, Entry>)
  {
    && Ascending(rs) && |rs| == |e|
    && (forall i :: 0 <= i < |rs| ==> rs[i].id in e && e[rs[i].id] == Entry(rs[i].score, rs[i].payload))
    && forall id :: id in e ==> Lists(rs, id)
  }

  lemma CollectedCount(e: map<string, Entry>, found: seq<Result>)
    requires Collected(e, multiset{}, found)
    ensures |found| == |e|
  {
    var ids := seq(|found|, i requires 0 <= i < |found| => found[i].id);
    forall id
      ensures id in ToSet(ids) <==> id in e
    {
      if id in e {
        var i :| 0 <= i < |found| && found[i].id == id;
        assert ids[i] == id;
      }
    }
    assert ToSet(ids) == e.Keys;
    DistinctCard(ids);
  }

  lemma SameMembers(found: seq<Result>, sorted: seq<Result>)
    requires multiset(sorted) == multiset(found)
    ensures |sorted| == |found| && forall r :: r in sorted <==> r in found
    ensures forall id :: Lists(sorted, id) <==> Lists(found, id)
  {
    assert |sorted| == |multiset(sorted)| == |found|;
    assert forall r :: r in sorted <==> r in multiset(sorted);
    assert forall id :: Lists(sorted, id) <==> exists r :: r in sorted && r.id == id;
    assert forall id :: Lists(found, id) <==> exists r :: r in found && r.id == id;
  }

  lemma SortedCollected(e: map<string, Entry>, found: seq<Result>, sorted: seq<Result>)
    requires Collected(e, multiset{}, found) && Ascending(sorted) && multiset(sorted) == multiset(found)
    ensures Complete(sorted, e)
  {
    CollectedCount(e, found);
    SameMembers(found, sorted);
    forall i | 0 <= i < |sorted|
      ensures sorted[i].id in e && e[sorted[i].id] == Entry(sorted[i].score, sorted[i].payload)
    {
      assert sorted[i] in found;
    }
  }

  lemma CutIsFirst(rs: seq<Result>, e: map<string, Entry>, k: int)
    requires Complete(rs, e) && k > 0
    ensures var cut := if |rs| > k then rs[..k] else rs;
      FirstOf(cut, k, Scores(e)) && forall i :: 0 <= i < |cut| ==> cut[i].id in e && e[cut[i].id].payload == cut[i].payload
  {
    var cut := if |rs| > k then rs[..k] else rs;
    var d := Scores(e);
    assert d.Keys == e.Keys;
    assert |d.Keys| == |e.Keys|;
    assert forall j :: 0 <= j < |cut| ==> cut[j] == rs[j];
    forall i, y | 0 <= i < |cut| && y in d && !Lists(cut, y)
      ensures Above(d, cut[i].id, y)
    {
      assert Lists(rs, y);
      var j :| 0 <= j < |rs| && rs[j].id == y;
      assert Before(ItemOf(rs[i]), ItemOf(rs[j]));
    }
  }

  lemma {:induction false} NothingAdded(limit: int, a: Agg, results: seq<Option<Result>>)
    requires limit <= 0
    ensures AddAll(limit, a, results) == a
  {
    if results != [] { NothingAdded(limit, a, results[..|results| - 1]); }
  }

  /** One result for each live item of the heap not left to look at. */
  ghost predicate Collected(e: map<string, Entry>, rest: multiset<Item>, found: seq<Result>)
  {
    && IdsDistinct(found)
    && (forall i :: 0 <= i < |found| ==>
          found[i].id in e && e[found[i].id] == Entry(found[i].score, found[i].payload) && ItemOf(found[i]) !in rest)
    && (forall id :: id in e && Item(id, e[id].score) !in rest ==> Lists(found, id))
  }

  // ---------------------------------------------------------------- what a snapshot is

  /** The first `k` of the best `limit` are the first of everything seen. */
  lemma FirstOfExact(limit: int, e: map<string, Entry>, d: map<string, real>, rs: seq<Result>, k: int)
    requires Exact(limit, e, d) && FirstOf(rs, k, Scores(e))
    ensures FirstOf(rs, Min(k, limit), d)
  {
    var c := Scores(e);
    assert c.Keys == e.Keys && |c.Keys| == |e.Keys|;
    forall i, y | 0 <= i < |rs| && y in d && !Lists(rs, y)
      ensures Above(d, rs[i].id, y)
    {
      if y in e { assert Above(c, rs[i].id, y); } else { assert Above(d, rs[i].id, y); }
    }
  }

  /** Where no identifier is seen again with a better score, the snapshot is exactly the first of all identifiers seen, by
      lowest score and then identifier. */
  lemma SnapshotIsTopK(limit: int, results: seq<Option<Result>>, k: int, rs: seq<Result>)
    requires NeverImproves(results) && FirstOf(rs, k, Scores(AddAll(limit, Empty, results).entries))
    ensures FirstOf(rs, Min(k, limit), Best(results))
    ensures forall id :: (id in Best(results) <==> Seen(results, id)) && (id in Best(results) ==> SeenWith(results, id, Best(results)[id]))
    ensures forall i: nat, id {:trigger IsFor(results, i, id)} :: IsFor(results, i, id) ==>
      id in Best(results) && Best(results)[id] <= results[i].value.score
  {
    NeverImprovesExact(limit, results);
    FirstOfExact(limit, AddAll(limit, Empty, results).entries, Best(results), rs, k);
    BestIsLowest(results);
  }

  lemma FirstListed(rs: seq<Result>, qs: seq<Result>, k: int, d: map<string, real>, n: nat)
    requires FirstOf(rs, k, d) && FirstOf(qs, k, d) && n < |rs|
    requires forall i :: 0 <= i < n ==> ItemOf(rs[i]) == ItemOf(qs[i])
    ensures !Before(ItemOf(rs[n]), ItemOf(qs[n]))
  {
    var x := ItemOf(rs[n]);
    if Before(x, ItemOf(qs[n])) {
      if Lists(qs, x.id) {
        var j :| 0 <= j < |qs| && qs[j].id == x.id;
        BeforeTotal(x, ItemOf(qs[j]));
        if j > n {
          BeforeTransitive(x, ItemOf(qs[n]), ItemOf(qs[j]));
        }
        assert false;
      } else {
        assert Above(d, qs[n].id, x.id);
        BeforeTotal(x, ItemOf(qs[n]));
        assert false;
      }
    }
  }

  /** There is only one such list. */
  lemma {:induction false} FirstUnique(rs: seq<Result>, qs: seq<Result>, k: int, d: map<string, real>, n: nat)
    requires FirstOf(rs, k, d) && FirstOf(qs, k, d) && n <= |rs|
    ensures |rs| == |qs| && forall i :: 0 <= i < n ==> ItemOf(rs[i]) == ItemOf(qs[i])
  {
    if n > 0 {
      FirstUnique(rs, qs, k, d, n - 1);
      FirstListed(rs, qs, k, d, n - 1);
      FirstListed(qs, rs, k, d, n - 1);
      BeforeTotal(ItemOf(rs[n - 1]), ItemOf(qs[n - 1]));
    }
  }
}
