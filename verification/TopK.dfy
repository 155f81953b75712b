/** The worker's two-level merge: bounded heaps for each shard, and one over what they kept. */
module TopK {
  import opened Prelude

  datatype Hit = Hit(id: string, score: real, meta: Option<seq<bv8>>)

  /** `out` holds `k` hits of `all`, or all of them, none of which scores worse than a hit left out. */
  ghost predicate Smallest(out: multiset<Hit>, all: multiset<Hit>, k: nat)
  {
    && out <= all && |out| == Min(k, |all|)
    && forall x, y :: x in out && y in all - out ==> x.score <= y.score
  }

  ghost predicate IsWorst(h: multiset<Hit>, w: Hit)
  {
    w in h && forall x :: x in h ==> x.score <= w.score
  }

  lemma SameSize(a: multiset<Hit>, b: multiset<Hit>)
    requires a <= b && |a| >= |b|
    ensures a == b
  {
    assert b == a + (b - a);
  }

  // ---------------------------------------------------------------- one heap

  lemma PushSmallest(h: multiset<Hit>, all: multiset<Hit>, k: nat, x: Hit)
    requires Smallest(h, all, k) && |h| < k
    ensures Smallest(h + multiset{x}, all + multiset{x}, k)
  {
    SameSize(h, all);
  }

  lemma ReplaceSmallest(h: multiset<Hit>, all: multiset<Hit>, k: nat, x: Hit, w: Hit)
    requires Smallest(h, all, k) && |h| == k && IsWorst(h, w) && x.score < w.score
    ensures Smallest(h - multiset{w} + multiset{x}, all + multiset{x}, k)
  {
  }

  lemma PassSmallest(h: multiset<Hit>, all: multiset<Hit>, k: nat, x: Hit)
    requires Smallest(h, all, k) && |h| == k && (h == multiset{} || exists w :: IsWorst(h, w) && x.score >= w.score)
    ensures Smallest(h, all + multiset{x}, k)
  {
  }

  // ---------------------------------------------------------------- two levels

  /** Bounding a shard's hits to its own `k` smallest first changes nothing. */
  lemma LocalBoundIsHarmless(out: multiset<Hit>, rest: multiset<Hit>, h: multiset<Hit>, m: multiset<Hit>, k: nat)
    requires Smallest(h, m, k) && Smallest(out, rest + h, k)
    ensures Smallest(out, rest + m, k)
  {
    if |h| == |m| {
      SameSize(h, m);
    } else {
      forall x, y | x in out && y in rest + m - out
        ensures x.score <= y.score
      {
        if x.score > y.score && y !in rest + h - out { CrowdedOut(out, rest, h, m, k, x, y); }
      }
    }
  }

  /** A multiset with an element of its own and no more elements than `h` lacks something of `h`. */
  lemma SomethingMissing(out: multiset<Hit>, h: multiset<Hit>, x: Hit)
    requires x in out && |out| <= |h|
    ensures exists z :: z in h && (z == x || h[z] > out[z])
  {
    if forall z :: z in h ==> h[z] <= out[z] {
      SameSize(h, out);
    }
  }

  lemma CrowdedOut(out: multiset<Hit>, rest: multiset<Hit>, h: multiset<Hit>, m: multiset<Hit>, k: nat, x: Hit, y: Hit)
    requires Smallest(h, m, k) && Smallest(out, rest + h, k) && |h| == k
    requires x in out && y in rest + m - out && y !in rest + h - out
    ensures x.score <= y.score
  {
    assert y in m - h;
    SomethingMissing(out, h, x);
    var z :| z in h && (z == x || h[z] > out[z]);
    assert z.score <= y.score;
    if z != x { assert z in rest + h - out; }
  }

  ghost function Sum(ms: seq<multiset<Hit>>): multiset<Hit>
  {
    if ms == [] then multiset{} else Sum(ms[..|ms| - 1]) + ms[|ms| - 1]
  }

  lemma {:induction false} InSum(ms: seq<multiset<Hit>>, x: Hit)
    ensures x in Sum(ms) <==> exists j :: 0 <= j < |ms| && x in ms[j]
  {
    if ms != [] {
      var front := ms[..|ms| - 1];
      InSum(front, x);
      if x in Sum(front) {
        var j :| 0 <= j < |front| && x in front[j];
        assert x in ms[j];
      }
      if j :| 0 <= j < |ms| && x in ms[j] {
        if j < |front| { assert x in front[j]; }
      }
    }
  }

  lemma Regroup(a: multiset<Hit>, b: multiset<Hit>, c: multiset<Hit>)
    ensures a + (b + c) == a + c + b == a + b + c
  {
  }

  ghost predicate Locals(kept: seq<multiset<Hit>>, ms: seq<multiset<Hit>>, k: nat)
  {
    |kept| == |ms| && forall j :: 0 <= j < |ms| ==> Smallest(kept[j], ms[j], k)
  }

  /** The `k` smallest of what the local heaps kept are the `k` smallest of everything the shards returned. */
  lemma {:induction false} TwoLevels(out: multiset<Hit>, rest: multiset<Hit>, kept: seq<multiset<Hit>>, ms: seq<multiset<Hit>>, k: nat)
    requires Locals(kept, ms, k) && Smallest(out, rest + Sum(kept), k)
    ensures Smallest(out, rest + Sum(ms), k)
    decreases |ms|
  {
    if ms != [] {
      var n := |ms| - 1;
      var a, b := Sum(kept[..n]), Sum(ms[..n]);
      Regroup(rest, a, kept[n]);
      TwoLevels(out, rest + kept[n], kept[..n], ms[..n], k);
      Regroup(rest, b, kept[n]);
      Regroup(rest, b, ms[n]);
      LocalBoundIsHarmless(out, rest + b, kept[n], ms[n], k);
    }
  }

  // ---------------------------------------------------------------- one hit for each identifier

  ghost function Ids(m: multiset<Hit>): set<string>
  {
    set x | x in m :: x.id
  }

  ghost predicate IdsDistinct(m: multiset<Hit>)
  {
    && (forall x :: x in m ==> m[x] == 1)
    && forall x, y :: x in m && y in m && x.id == y.id ==> x == y
  }

  lemma IdsWithout(m: multiset<Hit>, x: Hit)
    requires x in m
    ensures Ids(m) == Ids(m - multiset{x}) + {x.id}
    ensures IdsDistinct(m) ==> IdsDistinct(m - multiset{x}) && x.id !in Ids(m - multiset{x})
  {
  }

  lemma {:induction false} IdsCount(m: multiset<Hit>)
    ensures |Ids(m)| <= |m| && (IdsDistinct(m) ==> |Ids(m)| == |m|)
    decreases |m|
  {
    if m != multiset{} {
      var x :| x in m;
      var rest := m - multiset{x};
      IdsCount(rest);
      IdsWithout(m, x);
    }
  }

  /** `best` keeps, for each identifier of `m`, a hit with its lowest score. */
  ghost predicate BestHits(best: map<string, Hit>, m: multiset<Hit>)
  {
    && (forall id :: id in best ==> best[id].id == id && best[id] in m)
    && forall x :: x in m ==> x.id in best && best[x.id].score <= x.score
  }

  function Values(best: map<string, Hit>): set<Hit>
  {
    set id | id in best :: best[id]
  }

  /** `out` holds the `k` best identifiers of `all` up to ties, or all of them, each once and with its lowest score. */
  ghost predicate BestIds(out: multiset<Hit>, all: multiset<Hit>, k: nat)
  {
    && IdsDistinct(out) && |out| == Min(k, |Ids(all)|)
    && (forall x :: x in out ==> x in all)
    && (forall x, y :: x in out && y in all && y.id == x.id ==> x.score <= y.score)
    && forall x, y :: x in out && y in all && y.id !in Ids(out) ==> x.score <= y.score
  }

  /** What the merge with de-duplication works from. */
  ghost predicate Deduped(out: multiset<Hit>, best: map<string, Hit>, kept: seq<multiset<Hit>>, ms: seq<multiset<Hit>>, k: nat)
  {
    && Locals(kept, ms, k) && (forall j :: 0 <= j < |ms| ==> IdsDistinct(ms[j]))
    && BestHits(best, Sum(kept)) && Smallest(out, multiset(Values(best)), k)
  }

  lemma ValuesDistinct(best: map<string, Hit>, m: multiset<Hit>)
    requires BestHits(best, m)
    ensures IdsDistinct(multiset(Values(best))) && |Values(best)| == |Ids(m)|
  {
    var v := multiset(Values(best));
    assert forall x :: x in v <==> x.id in best && best[x.id] == x;
    assert Ids(v) == Ids(m) by {
      forall id
        ensures id in Ids(v) <==> id in Ids(m)
      {
        if id in best { assert best[id] in v && best[id] in m; }
      }
    }
    IdsCount(v);
  }

  lemma SubDistinct(h: multiset<Hit>, m: multiset<Hit>)
    requires h <= m && IdsDistinct(m)
    ensures IdsDistinct(h)
  {
  }

  /** Among `k` distinct identifiers, one is that of `x`, or is missing from an output of `k` that holds `x`. */
  lemma SomeIdMissing(out: multiset<Hit>, h: multiset<Hit>, x: Hit)
    requires x in out && |out| <= |h| && IdsDistinct(h)
    ensures exists z :: z in h && (z.id == x.id || z.id !in Ids(out))
  {
    IdsCount(h);
    IdsCount(out);
    if forall z :: z in h ==> z.id != x.id && z.id in Ids(out) {
      assert x.id in Ids(out);
      assert Ids(h) <= Ids(out) - {x.id};
      SubsetCard(Ids(h), Ids(out) - {x.id});
    }
  }

  /** No hit of the output scores worse than a hit some local heap dropped. */
  lemma DroppedAreWorse(out: multiset<Hit>, best: map<string, Hit>, kept: seq<multiset<Hit>>, ms: seq<multiset<Hit>>, k: nat,
                        j: nat, y: Hit, x: Hit)
    requires Deduped(out, best, kept, ms, k) && j < |ms| && y in ms[j] - kept[j] && x in out
    ensures x.score <= y.score
  {
    if |kept[j]| == |ms[j]| { SameSize(kept[j], ms[j]); }
    SubDistinct(kept[j], ms[j]);
    SomeIdMissing(out, kept[j], x);
    var z :| z in kept[j] && (z.id == x.id || z.id !in Ids(out));
    InSum(kept, z);
    assert x in multiset(Values(best)) && best[x.id] == x;
    if z.id !in Ids(out) { assert best[z.id] in multiset(Values(best)) - out; }
  }

  lemma OutputBeats(out: multiset<Hit>, best: map<string, Hit>, kept: seq<multiset<Hit>>, ms: seq<multiset<Hit>>, k: nat, x: Hit, y: Hit)
    requires Deduped(out, best, kept, ms, k) && x in out && y in Sum(ms) && (y.id == x.id || y.id !in Ids(out))
    ensures x.score <= y.score
  {
    InSum(ms, y);
    var j :| 0 <= j < |ms| && y in ms[j];
    if y in kept[j] {
      InSum(kept, y);
      assert x in multiset(Values(best)) && best[x.id] == x;
      if y.id !in Ids(out) { assert best[y.id] in multiset(Values(best)) - out; }
    } else {
      DroppedAreWorse(out, best, kept, ms, k, j, y, x);
    }
  }

  lemma KeptWithin(kept: seq<multiset<Hit>>, ms: seq<multiset<Hit>>, k: nat, x: Hit)
    requires Locals(kept, ms, k) && x in Sum(kept)
    ensures x in Sum(ms)
  {
    InSum(kept, x);
    InSum(ms, x);
    var j :| 0 <= j < |kept| && x in kept[j];
    assert x in ms[j];
  }

  lemma PartIds(ms: seq<multiset<Hit>>, j: nat)
    requires j < |ms|
    ensures Ids(ms[j]) <= Ids(Sum(ms))
  {
  }

  lemma FullHeapIds(kept: seq<multiset<Hit>>, ms: seq<multiset<Hit>>, k: nat, j: nat)
    requires Locals(kept, ms, k) && j < |ms| && IdsDistinct(ms[j]) && kept[j] != ms[j]
    ensures |Ids(Sum(kept))| >= k
  {
    if |kept[j]| == |ms[j]| { SameSize(kept[j], ms[j]); }
    SubDistinct(kept[j], ms[j]);
    IdsCount(kept[j]);
    PartIds(kept, j);
    SubsetCard(Ids(kept[j]), Ids(Sum(kept)));
  }

  lemma KeptIds(kept: seq<multiset<Hit>>, ms: seq<multiset<Hit>>, k: nat)
    requires Locals(kept, ms, k)
    ensures Ids(Sum(kept)) <= Ids(Sum(ms))
  {
    forall x | x in Sum(kept)
      ensures x in Sum(ms)
    {
      KeptWithin(kept, ms, k, x);
    }
  }

  /** The local bounds drop identifiers only where `k` distinct ones remain. */
  lemma EnoughIds(kept: seq<multiset<Hit>>, ms: seq<multiset<Hit>>, k: nat)
    requires Locals(kept, ms, k) && forall j :: 0 <= j < |ms| ==> IdsDistinct(ms[j])
    ensures Min(k, |Ids(Sum(kept))|) == Min(k, |Ids(Sum(ms))|)
  {
    KeptIds(kept, ms, k);
    SubsetCard(Ids(Sum(kept)), Ids(Sum(ms)));
    if j :| 0 <= j < |ms| && kept[j] != ms[j] {
      FullHeapIds(kept, ms, k, j);
    } else {
      assert kept == ms;
    }
  }

  /** With de-duplication, and identifiers distinct within each shard, the output is the `k` best distinct identifiers
      of everything the shards returned, although each shard's hits were cut to `k` first. */
  lemma DedupedIsBest(out: multiset<Hit>, best: map<string, Hit>, kept: seq<multiset<Hit>>, ms: seq<multiset<Hit>>, k: nat)
    requires Deduped(out, best, kept, ms, k)
    ensures BestIds(out, Sum(ms), k)
  {
    var v := multiset(Values(best));
    ValuesDistinct(best, Sum(kept));
    assert |v| == |Values(best)|;
    SubDistinct(out, v);
    EnoughIds(kept, ms, k);
    forall x | x in out
      ensures x in Sum(ms)
    {
      assert x in v;
      KeptWithin(kept, ms, k, x);
    }
    forall x, y | x in out && y in Sum(ms) && (y.id == x.id || y.id !in Ids(out))
      ensures x.score <= y.score
    {
      OutputBeats(out, best, kept, ms, k, x, y);
    }
  }
}
