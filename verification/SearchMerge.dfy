/** The worker's broadcast search: bounding each shard's hits, then merging what is left. */
module SearchMerge {
  import opened Prelude
  import opened TopK

  type Meta = Option<seq<bv8>>

  /** A shard's answer, as parallel arrays. */
  datatype Answer = Answer(ids: seq<string>, scores: seq<real>, metadata: seq<Meta>)

  const DEFAULT_K: nat := 10

  function Limit(k: int): (n: nat)
    ensures n > 0
  {
    if k <= 0 then DEFAULT_K else k
  }

  /** The hit at one position: missing metadata is empty. */
  function HitAt(a: Answer, i: nat): Hit
    requires i < |a.ids| && i < |a.scores|
  {
    Hit(a.ids[i], a.scores[i], if i < |a.metadata| then a.metadata[i] else None)
  }

  /** The hits of an answer, up to the end of the shorter of its two arrays. */
  function Hits(a: Answer): seq<Hit>
  {
    seq(Min(|a.ids|, |a.scores|), i requires 0 <= i < Min(|a.ids|, |a.scores|) => HitAt(a, i))
  }

  /** Entry by entry: as many hits as both arrays have entries, with the metadata where there is some. */
  lemma HitsAre(a: Answer)
    ensures |Hits(a)| == if |a.ids| < |a.scores| then |a.ids| else |a.scores|
    ensures forall i :: 0 <= i < |Hits(a)| ==>
      && Hits(a)[i].id == a.ids[i] && Hits(a)[i].score == a.scores[i]
      && (i < |a.metadata| ==> Hits(a)[i].meta == a.metadata[i]) && (i >= |a.metadata| ==> Hits(a)[i].meta == None)
  {
  }

  ghost function HitsOf(answers: seq<Answer>): seq<multiset<Hit>>
  {
    seq(|answers|, i requires 0 <= i < |answers| => multiset(Hits(answers[i])))
  }

  /** The hits are in ascending order of score. */
  ghost predicate Ascending(hits: seq<Hit>)
  {
    forall i, j :: 0 <= i < j < |hits| ==> hits[i].score <= hits[j].score
  }

  /** The root of a heap with the worst score on top: any of the worst. */
  method Root(h: multiset<Hit>) returns (w: Hit)
    requires h != multiset{}
    ensures IsWorst(h, w)
  {
    var rest := h;
    w :| w in rest;
    rest := rest - multiset{w};
    while rest != multiset{}
      invariant rest <= h && w in h && forall x :: x in h && x !in rest ==> x.score <= w.score
      decreases |rest|
    {
      var x :| x in rest;
      if x.score > w.score {
        w := x;
      }
      rest := rest - multiset{x};
    }
  }

  /** One more hit for a heap bounded to `limit`. */
  method Offer(h: multiset<Hit>, x: Hit, limit: nat, ghost all: multiset<Hit>) returns (r: multiset<Hit>)
    requires limit > 0 && Smallest(h, all, limit)
    ensures Smallest(r, all + multiset{x}, limit)
  {
    if |h| < limit {
      PushSmallest(h, all, limit, x);
      return h + multiset{x};
    }
    var w := Root(h);
    if x.score < w.score {
      ReplaceSmallest(h, all, limit, x, w);
      return h - multiset{w} + multiset{x};
    }
    PassSmallest(h, all, limit, x);
    return h;
  }

  method OfferAll(h: multiset<Hit>, hits: seq<Hit>, limit: nat, ghost all: multiset<Hit>) returns (r: multiset<Hit>)
    requires limit > 0 && Smallest(h, all, limit)
    ensures Smallest(r, all + multiset(hits), limit)
  {
    r := h;
    for i := 0 to |hits|
      invariant Smallest(r, all + multiset(hits[..i]), limit)
    {
      assert hits[..i + 1] == hits[..i] + [hits[i]];
      r := Offer(r, hits[i], limit, all + multiset(hits[..i]));
      assert all + multiset(hits[..i]) + multiset{hits[i]} == all + multiset(hits[..i + 1]);
    }
    assert hits[..|hits|] == hits;
  }

  /** The `limit` smallest of the first `i` hits of a list. */
  ghost predicate TopOfFirst(h: multiset<Hit>, hits: seq<Hit>, i: nat, limit: nat)
  {
    i <= |hits| && Smallest(h, multiset(hits[..i]), limit)
  }

  /** The heap offered one more hit, in a list. */
  method OfferAt(h: multiset<Hit>, x: Hit, limit: nat, ghost hits: seq<Hit>, ghost i: nat) returns (r: multiset<Hit>)
    requires limit > 0 && TopOfFirst(h, hits, i, limit) && i < |hits| && hits[i] == x
    ensures TopOfFirst(r, hits, i + 1, limit)
  {
    assert hits[..i + 1] == hits[..i] + [x];
    r := Offer(h, x, limit, multiset(hits[..i]));
  }

  /** A shard's hits, cut to its own `limit` smallest. */
  method LocalTop(a: Answer, limit: nat) returns (h: multiset<Hit>)
    requires limit > 0
    ensures Smallest(h, multiset(Hits(a)), limit)
  {
    h := multiset{};
    var i := 0;
    while i < |a.ids| && i < |a.scores|
      invariant TopOfFirst(h, Hits(a), i, limit)
    {
      h := OfferAt(h, HitAt(a, i), limit, Hits(a), i);
      i := i + 1;
    }
    assert Hits(a)[..i] == Hits(a);
  }

  /** A heap's items in the order its array happens to hold them. */
  method Listing(h: multiset<Hit>) returns (hits: seq<Hit>)
    ensures multiset(hits) == h
  {
    hits := [];
    var rest := h;
    while rest != multiset{}
      invariant multiset(hits) + rest == h
      decreases |rest|
    {
      var x :| x in rest;
      hits := hits + [x];
      rest := rest - multiset{x};
    }
  }

  /** Part-way through emptying `h`: the hits so far are in order, and nothing left is worse than any of them. */
  ghost predicate Drained(h: multiset<Hit>, rest: multiset<Hit>, hits: seq<Hit>)
  {
    && multiset(hits) + rest == h && Ascending(hits)
    && forall x, i :: x in rest && 0 <= i < |hits| ==> x.score <= hits[i].score
  }

  lemma DrainedNext(h: multiset<Hit>, rest: multiset<Hit>, hits: seq<Hit>, w: Hit)
    requires Drained(h, rest, hits) && IsWorst(rest, w)
    ensures Drained(h, rest - multiset{w}, [w] + hits)
  {
    assert multiset([w] + hits) + (rest - multiset{w}) == multiset(hits) + rest;
    forall i, j | 0 <= i < j < |[w] + hits|
      ensures ([w] + hits)[i].score <= ([w] + hits)[j].score
    {
      assert ([w] + hits)[j] == hits[j - 1];
    }
  }

  /** Emptying the heap from the back gives its hits in ascending order. */
  method Drain(h: multiset<Hit>) returns (hits: seq<Hit>)
    ensures multiset(hits) == h && Ascending(hits)
  {
    hits := [];
    var rest := h;
    while rest != multiset{}
      invariant Drained(h, rest, hits)
      decreases |rest|
    {
      var w := Root(rest);
      DrainedNext(h, rest, hits, w);
      rest := rest - multiset{w};
      hits := [w] + hits;
    }
  }

  ghost function Contents(locals: seq<seq<Hit>>): (m: seq<multiset<Hit>>)
    ensures |m| == |locals|
  {
    seq(|locals|, i requires 0 <= i < |locals| => multiset(locals[i]))
  }

  lemma ContentsSnoc(locals: seq<seq<Hit>>, i: nat)
    requires i < |locals|
    ensures Sum(Contents(locals[..i + 1])) == Sum(Contents(locals[..i])) + multiset(locals[i])
  {
    assert Contents(locals[..i + 1])[..i] == Contents(locals[..i]);
  }

  /** What the shards' goroutines send, in the order it arrives. */
  method LocalTops(answers: seq<Answer>, limit: nat) returns (locals: seq<seq<Hit>>)
    requires limit > 0
    ensures Locals(Contents(locals), HitsOf(answers), limit)
  {
    locals := [];
    for j := 0 to |answers|
      invariant |locals| == j && forall i :: 0 <= i < j ==> Smallest(multiset(locals[i]), multiset(Hits(answers[i])), limit)
    {
      var h := LocalTop(answers[j], limit);
      var local := Listing(h);
      locals := locals + [local];
    }
  }

  method MergeAll(locals: seq<seq<Hit>>, limit: nat) returns (top: multiset<Hit>)
    requires limit > 0
    ensures Smallest(top, Sum(Contents(locals)), limit)
  {
    top := multiset{};
    for j := 0 to |locals|
      invariant Smallest(top, Sum(Contents(locals[..j])), limit)
    {
      ContentsSnoc(locals, j);
      top := OfferAll(top, locals[j], limit, Sum(Contents(locals[..j])));
    }
    assert locals[..|locals|] == locals;
  }

  method MergeDeduped(locals: seq<seq<Hit>>, limit: nat) returns (top: multiset<Hit>, ghost best: map<string, Hit>)
    requires limit > 0
    ensures BestHits(best, Sum(Contents(locals))) && Smallest(top, multiset(Values(best)), limit)
  {
    var found: map<string, Hit> := map[];
    for j := 0 to |locals|
      invariant BestHits(found, Sum(Contents(locals[..j])))
    {
      ContentsSnoc(locals, j);
      found := Improve(found, locals[j], Sum(Contents(locals[..j])));
    }
    assert locals[..|locals|] == locals;
    best := found;
    top := TopOf(found, limit);
  }

  /** The best hit of each identifier, cut to the `limit` smallest. */
  method TopOf(best: map<string, Hit>, limit: nat) returns (top: multiset<Hit>)
    requires limit > 0 && forall id :: id in best ==> best[id].id == id
    ensures Smallest(top, multiset(Values(best)), limit)
  {
    var values := BestValues(best);
    NothingElse(multiset(values));
    top := OfferAll(multiset{}, values, limit, multiset{});
  }

  /** The hits of a broadcast search over the answers of the shards that answered, in the order they arrive. */
  method Merge(answers: seq<Answer>, k: int, dedupe: bool) returns (hits: seq<Hit>)
    ensures Ascending(hits) && |hits| <= Limit(k)
    ensures !dedupe ==> Smallest(multiset(hits), Sum(HitsOf(answers)), Limit(k))
    ensures dedupe && (forall j :: 0 <= j < |answers| ==> TopK.IdsDistinct(HitsOf(answers)[j])) ==>
      BestIds(multiset(hits), Sum(HitsOf(answers)), Limit(k))
  {
    var limit := Limit(k);
    var locals := LocalTops(answers, limit);
    var top;
    if dedupe {
      ghost var best;
      top, best := MergeDeduped(locals, limit);
      if forall j :: 0 <= j < |answers| ==> TopK.IdsDistinct(HitsOf(answers)[j]) {
        DedupedIsBest(top, best, Contents(locals), HitsOf(answers), limit);
      }
    } else {
      top := MergeAll(locals, limit);
      NothingElse(Sum(Contents(locals)));
      NothingElse(Sum(HitsOf(answers)));
      TwoLevels(top, multiset{}, Contents(locals), HitsOf(answers), limit);
    }
    hits := Drain(top);
    assert |hits| == |multiset(hits)|;
  }

  lemma NothingElse(m: multiset<Hit>)
    ensures multiset{} + m == m
  {
  }

  /** The answers of the shards that did not fail. */
  function Answered(shards: seq<Option<Answer>>): seq<Answer>
  {
    if shards == [] then []
    else
      var front, last := Answered(shards[..|shards| - 1]), shards[|shards| - 1];
      if last.Some? then front + [last.value] else front
  }

  method CollectAnswers(shards: seq<Option<Answer>>) returns (answers: seq<Answer>)
    ensures answers == Answered(shards)
  {
    answers := [];
    for j := 0 to |shards|
      invariant answers == Answered(shards[..j])
    {
      assert shards[..j + 1][..j] == shards[..j];
      if shards[j].Some? {
        answers := answers + [shards[j].value];
      }
    }
    assert shards[..|shards|] == shards;
  }

  /** What each shard contributes: the hits of its answer, and nothing if it failed. */
  ghost function Contributions(shards: seq<Option<Answer>>): (ms: seq<multiset<Hit>>)
    ensures |ms| == |shards|
  {
    seq(|shards|, i requires 0 <= i < |shards| => if shards[i].Some? then multiset(Hits(shards[i].value)) else multiset{})
  }

  /** Exactly the failed shards are left out: every answer is kept as often as it occurs. */
  lemma {:induction false} AnsweredKeepsAll(shards: seq<Option<Answer>>)
    ensures forall a :: multiset(Answered(shards))[a] == multiset(shards)[Some(a)]
  {
    if shards != [] {
      var front, last := shards[..|shards| - 1], shards[|shards| - 1];
      AnsweredKeepsAll(front);
      assert shards == front + [last];
    }
  }

  /** And so is what it contributes. */
  lemma {:induction false} AnsweredSums(shards: seq<Option<Answer>>)
    ensures Sum(HitsOf(Answered(shards))) == Sum(Contributions(shards))
  {
    if shards != [] {
      var front, last := shards[..|shards| - 1], shards[|shards| - 1];
      AnsweredSums(front);
      assert Contributions(shards)[..|front|] == Contributions(front);
      if last.Some? { HitsOfSnoc(Answered(front), last.value); }
    }
  }

  lemma HitsOfSnoc(answers: seq<Answer>, a: Answer)
    ensures Sum(HitsOf(answers + [a])) == Sum(HitsOf(answers)) + multiset(Hits(a))
  {
    var ms := HitsOf(answers + [a]);
    assert ms[|answers|] == multiset(Hits(a));
    forall j | 0 <= j < |answers|
      ensures ms[j] == HitsOf(answers)[j]
    {
      assert (answers + [a])[j] == answers[j];
    }
    assert ms[..|ms| - 1] == HitsOf(answers);
  }

  /** No shard that answers names an identifier twice. */
  ghost predicate DistinctWithinShards(shards: seq<Option<Answer>>)
  {
    forall i :: 0 <= i < |shards| && shards[i].Some? ==> TopK.IdsDistinct(multiset(Hits(shards[i].value)))
  }

  lemma DistinctAnswers(shards: seq<Option<Answer>>)
    requires DistinctWithinShards(shards)
    ensures forall j :: 0 <= j < |Answered(shards)| ==> TopK.IdsDistinct(HitsOf(Answered(shards))[j])
  {
    AnsweredKeepsAll(shards);
    forall j | 0 <= j < |Answered(shards)|
      ensures TopK.IdsDistinct(HitsOf(Answered(shards))[j])
    {
      var a := Answered(shards)[j];
      assert multiset(Answered(shards))[a] == multiset(shards)[Some(a)];
      assert Some(a) in multiset(shards);
    }
  }

  /** A worker with one shard returns that shard's answer, or its failure, as it is; with more, a failed shard is left
      out and all the others are merged, up to `k` hits, or ten where no `k` is asked for. */
  method SearchBroadcast(shards: seq<Option<Answer>>, k: int, dedupe: bool) returns (r: Option<Answer>)
    ensures |shards| == 1 ==> r == shards[0]
    ensures |shards| != 1 ==>
      && r.Some? && Ascending(Hits(r.value)) && |r.value.ids| == |r.value.scores| == |r.value.metadata|
      && |r.value.ids| <= if k > 0 then k else 10
    ensures |shards| != 1 && !dedupe ==> Smallest(multiset(Hits(r.value)), Sum(Contributions(shards)), if k > 0 then k else 10)
    ensures |shards| != 1 && dedupe && DistinctWithinShards(shards) ==>
      BestIds(multiset(Hits(r.value)), Sum(Contributions(shards)), if k > 0 then k else 10)
  {
    if |shards| == 1 {
      return shards[0];
    }
    var answers := CollectAnswers(shards);
    AnsweredSums(shards);
    if DistinctWithinShards(shards) { DistinctAnswers(shards); }
    var hits := Merge(answers, k, dedupe);
    ResponseAligned(hits);
    r := Some(Response(hits));
  }

  /** Keeping the better of two hits for each identifier. */
  method Improve(best: map<string, Hit>, hits: seq<Hit>, ghost m: multiset<Hit>) returns (r: map<string, Hit>)
    requires BestHits(best, m)
    ensures BestHits(r, m + multiset(hits))
  {
    r := best;
    for i := 0 to |hits|
      invariant BestWith(r, m, hits, i)
    {
      var x := hits[i];
      BestHitsNext(r, m, hits, i);
      if x.id !in r || r[x.id].score > x.score {
        r := r[x.id := x];
      }
    }
    assert hits[..|hits|] == hits;
  }

  /** The best hits of `m` and the first `i` of a list. */
  ghost predicate BestWith(best: map<string, Hit>, m: multiset<Hit>, hits: seq<Hit>, i: nat)
  {
    i <= |hits| && BestHits(best, m + multiset(hits[..i]))
  }

  lemma BestHitsNext(best: map<string, Hit>, m: multiset<Hit>, hits: seq<Hit>, i: nat)
    requires i < |hits| && BestWith(best, m, hits, i)
    ensures BestWith(if hits[i].id !in best || best[hits[i].id].score > hits[i].score then best[hits[i].id := hits[i]] else best, m, hits, i + 1)
  {
    assert hits[..i + 1] == hits[..i] + [hits[i]];
    assert m + multiset(hits[..i]) + multiset{hits[i]} == m + multiset(hits[..i + 1]);
    BestHitsWith(best, m + multiset(hits[..i]), hits[i]);
  }

  lemma BestHitsWith(best: map<string, Hit>, m: multiset<Hit>, x: Hit)
    requires BestHits(best, m)
    ensures BestHits(if x.id !in best || best[x.id].score > x.score then best[x.id := x] else best, m + multiset{x})
  {
  }

  method BestValues(best: map<string, Hit>) returns (values: seq<Hit>)
    requires forall id :: id in best ==> best[id].id == id
    ensures multiset(values) == multiset(Values(best))
  {
    values := [];
    var ids := best.Keys;
    while ids != {}
      invariant ids <= best.Keys && multiset(values) == multiset(set id | id in best && id !in ids :: best[id])
      decreases |ids|
    {
      var id :| id in ids;
      values := values + [best[id]];
      assert (set x | x in best && x !in ids - {id} :: best[x]) == (set x | x in best && x !in ids :: best[x]) + {best[id]};
      ids := ids - {id};
    }
    assert (set x | x in best && x !in ids :: best[x]) == Values(best);
  }

  /** The response's three arrays, one entry of each for every hit. */
  function Response(hits: seq<Hit>): Answer
  {
    Answer(seq(|hits|, i requires 0 <= i < |hits| => hits[i].id), seq(|hits|, i requires 0 <= i < |hits| => hits[i].score),
           seq(|hits|, i requires 0 <= i < |hits| => hits[i].meta))
  }

  /** The three arrays of a response are aligned: they read back as its hits. */
  lemma ResponseAligned(hits: seq<Hit>)
    ensures Hits(Response(hits)) == hits
  {
  }
}
