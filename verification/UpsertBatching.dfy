/** The client libraries' splitting of large upserts into batches limited in points and in bytes. */
module UpsertBatching {
  import opened Prelude

  /** The limits on one batch; `bytes` of zero or less stands for no limit. */
  datatype Limits = Limits(points: nat, bytes: int)

  const DEFAULT_BATCH_SIZE: nat := 256

  function LimitsFor(batchSize: int, maxBatchBytes: int): Limits
  {
    Limits(if batchSize <= 0 then DEFAULT_BATCH_SIZE else batchSize, maxBatchBytes)
  }

  function Total<P>(points: seq<P>, size: P -> nat): nat
  {
    if points == [] then 0 else Total(points[..|points| - 1], size) + size(points[|points| - 1])
  }

  /** Every point counts with its own size. */
  lemma TotalSnoc<P>(points: seq<P>, p: P, size: P -> nat)
    ensures Total([], size) == 0 && Total(points + [p], size) == Total(points, size) + size(p)
  {
    assert (points + [p])[..|points|] == points;
  }

  /** A batch within both limits, but for a single point over the limit in bytes. */
  predicate Fits<P>(batch: seq<P>, l: Limits, size: P -> nat)
  {
    1 <= |batch| <= l.points && (l.bytes > 0 && |batch| > 1 ==> Total(batch, size) <= l.bytes)
  }

  function Concat<P>(batches: seq<seq<P>>): seq<P>
  {
    if batches == [] then [] else batches[0] + Concat(batches[1..])
  }

  /** An order-preserving split within the limits. */
  ghost predicate Split<P>(points: seq<P>, batches: seq<seq<P>>, l: Limits, size: P -> nat)
  {
    Concat(batches) == points && forall i :: 0 <= i < |batches| ==> Fits(batches[i], l, size)
  }

  // ---------------------------------------------------------------- the greedy split

  /** How far the batch under construction reaches, given that its first `n` points are in. */
  function Reach<P>(points: seq<P>, n: nat, l: Limits, size: P -> nat): (k: nat)
    requires n <= |points|
    ensures n <= k <= |points|
    decreases |points| - n
  {
    if n < |points| && Fits(points[..n + 1], l, size) then Reach(points, n + 1, l, size) else n
  }

  lemma {:induction false} TotalConcat<P>(a: seq<P>, b: seq<P>, size: P -> nat)
    ensures Total(a + b, size) == Total(a, size) + Total(b, size)
  {
    if b == [] {
      assert a + b == a;
    } else {
      TotalConcat(a, b[..|b| - 1], size);
      assert (a + b)[..|a + b| - 1] == a + b[..|b| - 1];
    }
  }

  /** Part of a batch that fits, fits. */
  lemma PartFits<P>(batch: seq<P>, i: nat, j: nat, l: Limits, size: P -> nat)
    requires Fits(batch, l, size) && i < j <= |batch|
    ensures Fits(batch[i..j], l, size)
  {
    TotalConcat(batch[..i], batch[i..j], size);
    TotalConcat(batch[..j], batch[j..], size);
    assert batch[..i] + batch[i..j] == batch[..j] && batch[..j] + batch[j..] == batch;
  }

  /** The greedy batch fits, and no prefix that fits is longer. */
  lemma {:induction false} ReachIsFarthest<P>(points: seq<P>, n: nat, l: Limits, size: P -> nat)
    requires n <= |points| && (n > 0 ==> Fits(points[..n], l, size))
    ensures var k := Reach(points, n, l, size);
      && (k > 0 ==> Fits(points[..k], l, size))
      && forall j :: n <= j <= |points| && Fits(points[..j], l, size) ==> j <= k
    decreases |points| - n
  {
    if n < |points| {
      if Fits(points[..n + 1], l, size) {
        ReachIsFarthest(points, n + 1, l, size);
      } else {
        forall j | n < j <= |points|
          ensures !Fits(points[..j], l, size)
        {
          assert points[..j][0..n + 1] == points[..n + 1];
          if Fits(points[..j], l, size) { PartFits(points[..j], 0, n + 1, l, size); }
        }
      }
    }
  }

  function Greedy<P>(points: seq<P>, l: Limits, size: P -> nat): seq<seq<P>>
    requires l.points > 0
    decreases |points|
  {
    if points == [] then []
    else
      var k := Reach(points, 0, l, size);
      [points[..k]] + Greedy(points[k..], l, size)
  }

  /** The batches concatenate to the points in order, each within the limits. */
  lemma {:induction false} GreedySplits<P>(points: seq<P>, l: Limits, size: P -> nat)
    requires l.points > 0
    ensures Split(points, Greedy(points, l, size), l, size)
    decreases |points|
  {
    if points != [] {
      var k := Reach(points, 0, l, size);
      ReachIsFarthest(points, 0, l, size);
      GreedySplits(points[k..], l, size);
      assert Greedy(points, l, size)[1..] == Greedy(points[k..], l, size);
      assert points[..k] + points[k..] == points;
    }
  }

  // ---------------------------------------------------------------- and it is optimal

  /** Started at or after the start of any split within the limits, the greedy one needs no more batches. */
  lemma {:induction false} StaysAhead<P>(points: seq<P>, from: nat, batches: seq<seq<P>>, l: Limits, size: P -> nat)
    requires l.points > 0 && from <= |points| && Split(points, batches, l, size)
    ensures |Greedy(points[from..], l, size)| <= |batches|
    decreases |batches|
  {
    var rest := points[from..];
    if rest != [] {
      assert batches != [];
      var first := batches[0];
      assert points == first + Concat(batches[1..]) && points[|first|..] == Concat(batches[1..]);
      assert Split(points[|first|..], batches[1..], l, size);
      if |first| <= from {
        assert points[|first|..][from - |first|..] == rest;
        StaysAhead(points[|first|..], from - |first|, batches[1..], l, size);
      } else {
        GreedyReaches(points, from, first, l, size);
        var k := Reach(rest, 0, l, size);
        assert rest[k..] == points[|first|..][from + k - |first|..];
        StaysAhead(points[|first|..], from + k - |first|, batches[1..], l, size);
      }
    }
  }

  /** From inside a batch that fits, the greedy batch reaches at least to its end. */
  lemma GreedyReaches<P>(points: seq<P>, from: nat, first: seq<P>, l: Limits, size: P -> nat)
    requires l.points > 0 && Fits(first, l, size) && first <= points && from < |first|
    ensures from + Reach(points[from..], 0, l, size) >= |first|
    ensures Reach(points[from..], 0, l, size) > 0
  {
    PartFits(first, from, |first|, l, size);
    assert points[from..][..|first| - from] == first[from..];
    assert first[from..|first|] == first[from..];
    ReachIsFarthest(points[from..], 0, l, size);
  }

  /** No order-preserving split within the limits uses fewer batches. */
  lemma GreedyIsOptimal<P>(points: seq<P>, batches: seq<seq<P>>, l: Limits, size: P -> nat)
    requires l.points > 0 && Split(points, batches, l, size)
    ensures |Greedy(points, l, size)| <= |batches|
  {
    assert points[0..] == points;
    StaysAhead(points, 0, batches, l, size);
  }

  /** All the points in order, in batches of at most the size asked for, or 256 where none is, each within the limit in
      bytes, if there is one, unless it is a single point. */
  ghost predicate Batched<P>(points: seq<P>, batches: seq<seq<P>>, batchSize: int, maxBatchBytes: int, size: P -> nat)
  {
    && Concat(batches) == points
    && forall i :: 0 <= i < |batches| ==>
         && 1 <= |batches[i]| <= (if batchSize > 0 then batchSize else 256)
         && (maxBatchBytes > 0 && |batches[i]| > 1 ==> Total(batches[i], size) <= maxBatchBytes)
  }

  /** No other such batches are fewer. */
  ghost predicate Fewest<P(!new)>(points: seq<P>, batches: seq<seq<P>>, batchSize: int, maxBatchBytes: int, size: P -> nat)
  {
    forall others: seq<seq<P>> :: Batched(points, others, batchSize, maxBatchBytes, size) ==> |batches| <= |others|
  }

  lemma GreedyForOptions<P(!new)>(points: seq<P>, batchSize: int, maxBatchBytes: int, size: P -> nat)
    ensures var batches := Greedy(points, LimitsFor(batchSize, maxBatchBytes), size);
      Batched(points, batches, batchSize, maxBatchBytes, size) && Fewest(points, batches, batchSize, maxBatchBytes, size)
  {
    var l := LimitsFor(batchSize, maxBatchBytes);
    GreedySplits(points, l, size);
    forall others: seq<seq<P>> | Batched(points, others, batchSize, maxBatchBytes, size)
      ensures |Greedy(points, l, size)| <= |others|
    {
      assert Split(points, others, l, size);
      GreedyIsOptimal(points, others, l, size);
    }
  }

  // ---------------------------------------------------------------- the libraries' loops

  /** `batches` is the greedy split so far, `from` points in. */
  ghost predicate Partial<P>(points: seq<P>, from: nat, batches: seq<seq<P>>, l: Limits, size: P -> nat)
    requires l.points > 0
  {
    from <= |points| && batches + Greedy(points[from..], l, size) == Greedy(points, l, size)
  }

  lemma PartialNext<P>(points: seq<P>, from: nat, to: nat, batches: seq<seq<P>>, l: Limits, size: P -> nat)
    requires l.points > 0 && Partial(points, from, batches, l, size)
    requires from < |points| && to == from + Reach(points[from..], 0, l, size)
    ensures from < to <= |points| && Partial(points, to, batches + [points[from..to]], l, size)
  {
    var rest, k := points[from..], to - from;
    assert rest[..k] == points[from..to] && rest[k..] == points[to..];
    assert batches + ([points[from..to]] + Greedy(points[to..], l, size)) == batches + [points[from..to]] + Greedy(points[to..], l, size);
  }

  lemma ChunkReach<P>(points: seq<P>, l: Limits, size: P -> nat)
    requires l.points > 0 && l.bytes <= 0 && points != []
    ensures Reach(points, 0, l, size) == Min(l.points, |points|)
  {
    ReachIsFarthest(points, 0, l, size);
    assert Fits(points[..Min(l.points, |points|)], l, size);
  }

  /** One batch of the byte-limited loop, point by point from `from` on. */
  method FillBatch<P>(points: seq<P>, from: nat, l: Limits, size: P -> nat) returns (batch: seq<P>, idx: nat)
    requires l.points > 0 && l.bytes > 0 && from < |points|
    ensures idx == from + Reach(points[from..], 0, l, size) && idx <= |points| && batch == points[from..idx]
  {
    batch, idx := [], from;
    var bytes := 0;
    ghost var rest := points[from..];
    while idx < |points| && |batch| < l.points
      invariant from <= idx <= |points| && batch == points[from..idx] == rest[..idx - from] && bytes == Total(batch, size)
      invariant Reach(rest, 0, l, size) == Reach(rest, idx - from, l, size)
      decreases |points| - idx
    {
      var pBytes := size(points[idx]);
      assert rest[..idx - from + 1] == batch + [points[idx]] && (batch + [points[idx]])[..|batch|] == batch;
      if |batch| == 0 || bytes + pBytes <= l.bytes {
        batch := batch + [points[idx]];
        bytes := bytes + pBytes;
        idx := idx + 1;
        continue;
      }
      break;
    }
  }

  /** The JavaScript client's batches are the greedy split. */
  method MakeBatches<P(!new)>(points: seq<P>, batchSize: int, maxBatchBytes: int, size: P -> nat) returns (batches: seq<seq<P>>)
    ensures batches == Greedy(points, LimitsFor(batchSize, maxBatchBytes), size)
    ensures Batched(points, batches, batchSize, maxBatchBytes, size) && Fewest(points, batches, batchSize, maxBatchBytes, size)
  {
    GreedyForOptions(points, batchSize, maxBatchBytes, size);
    var l := LimitsFor(batchSize, maxBatchBytes);
    batches := [];
    var idx := 0;
    while idx < |points|
      invariant idx <= |points| && Partial(points, idx, batches, l, size)
      decreases |points| - idx
    {
      var batch, next;
      if maxBatchBytes > 0 {
        batch, next := FillBatch(points, idx, l, size);
      } else {
        ChunkReach(points[idx..], l, size);
        next := if idx + l.points <= |points| then idx + l.points else |points|;
        batch := points[idx..next];
      }
      PartialNext(points, idx, next, batches, l, size);
      batches := batches + [batch];
      idx := next;
    }
  }

  /** The Go client's batches, cut from the slice by position, are the same. */
  method SendBatches<P(!new)>(points: seq<P>, batchSize: int, maxBatchBytes: int, size: P -> nat) returns (sent: seq<seq<P>>)
    ensures sent == Greedy(points, LimitsFor(batchSize, maxBatchBytes), size)
    ensures Batched(points, sent, batchSize, maxBatchBytes, size) && Fewest(points, sent, batchSize, maxBatchBytes, size)
  {
    GreedyForOptions(points, batchSize, maxBatchBytes, size);
    var l := LimitsFor(batchSize, maxBatchBytes);
    sent := [];
    var start := 0;
    while start < |points|
      invariant start <= |points| && Partial(points, start, sent, l, size)
      decreases |points| - start
    {
      var end := start;
      if maxBatchBytes <= 0 {
        ChunkReach(points[start..], l, size);
        end := if start + l.points > |points| then |points| else start + l.points;
      } else {
        end := ReachEnd(points, start, l, size);
      }
      PartialNext(points, start, end, sent, l, size);
      sent := sent + [points[start..end]];
      start := end;
    }
  }

  method ReachEnd<P>(points: seq<P>, start: nat, l: Limits, size: P -> nat) returns (end: nat)
    requires l.points > 0 && l.bytes > 0 && start < |points|
    ensures end == start + Reach(points[start..], 0, l, size)
  {
    var curBytes := 0;
    end := start;
    ghost var rest := points[start..];
    while end < |points| && end - start < l.points
      invariant start <= end <= |points| && curBytes == Total(rest[..end - start], size)
      invariant Reach(rest, 0, l, size) == Reach(rest, end - start, l, size)
      decreases |points| - end
    {
      assert rest[..end - start + 1] == rest[..end - start] + [points[end]];
      assert rest[..end - start + 1][..end - start] == rest[..end - start];
      var pointBytes := size(points[end]);
      if end == start || curBytes + pointBytes <= l.bytes {
        curBytes := curBytes + pointBytes;
        end := end + 1;
        continue;
      }
      break;
    }
  }

  // ---------------------------------------------------------------- sharing the batches out

  /** The batches worker `i` of `n` takes: every `n`th, in order. */
  function Share<P>(batches: seq<seq<P>>, n: nat, i: nat): seq<seq<P>>
    requires n > 0
  {
    if batches == [] then []
    else
      var m := |batches| - 1;
      Share(batches[..m], n, i) + if m % n == i then [batches[m]] else []
  }

  /** What the upserts of some batches returned, added up. */
  function Sum<P>(batches: seq<seq<P>>, upserted: seq<P> -> int): int
  {
    if batches == [] then 0 else Sum(batches[..|batches| - 1], upserted) + upserted(batches[|batches| - 1])
  }

  /** The subtotals of the first `k` workers, added up. */
  function Subtotals<P>(batches: seq<seq<P>>, n: nat, k: nat, upserted: seq<P> -> int): int
    requires n > 0
  {
    if k == 0 then 0 else Subtotals(batches, n, k - 1, upserted) + Sum(Share(batches, n, k - 1), upserted)
  }

  lemma {:induction false} OneShareGrows<P>(batches: seq<seq<P>>, n: nat, k: nat, upserted: seq<P> -> int)
    requires n > 0 && batches != []
    ensures var m := |batches| - 1;
      Subtotals(batches, n, k, upserted) ==
        Subtotals(batches[..m], n, k, upserted) + if m % n < k then upserted(batches[m]) else 0
  {
    if k > 0 {
      var m := |batches| - 1;
      OneShareGrows(batches, n, k - 1, upserted);
      var share := Share(batches[..m], n, k - 1);
      assert (share + [batches[m]])[..|share|] == share;
      assert share + [] == share;
    }
  }

  /** Every batch is upserted exactly once: whatever each upsert returns, the workers' subtotals add up to the total over
      all batches. */
  lemma {:induction false} SharesCoverBatches<P>(batches: seq<seq<P>>, n: nat, upserted: seq<P> -> int)
    requires n > 0
    ensures Subtotals(batches, n, n, upserted) == Sum(batches, upserted)
    decreases |batches|
  {
    if batches == [] {
      NothingShared(batches, n, n, upserted);
    } else {
      OneShareGrows(batches, n, n, upserted);
      SharesCoverBatches(batches[..|batches| - 1], n, upserted);
    }
  }

  lemma {:induction false} NothingShared<P>(batches: seq<seq<P>>, n: nat, k: nat, upserted: seq<P> -> int)
    requires n > 0 && batches == []
    ensures Subtotals(batches, n, k, upserted) == 0
  {
    if k > 0 { NothingShared(batches, n, k - 1, upserted); }
  }

  /** Upserting every batch, by one worker or several, gives the total over the greedy split. */
  method UpsertBatches<P(!new)>(points: seq<P>, batchSize: int, maxBatchBytes: int, concurrency: int, size: P -> nat, upserted: seq<P> -> int)
    returns (total: int, ghost all: seq<seq<P>>)
    ensures total == Sum(all, upserted) && all == Greedy(points, LimitsFor(batchSize, maxBatchBytes), size)
    ensures Batched(points, all, batchSize, maxBatchBytes, size) && Fewest(points, all, batchSize, maxBatchBytes, size)
  {
    var batches := MakeBatches(points, batchSize, maxBatchBytes, size);
    all := batches;
    var n := if concurrency <= 0 then 1 else concurrency;
    if n == 1 {
      total := UpsertShare(batches, upserted);
      return;
    }
    total := 0;
    for i := 0 to n
      invariant total == Subtotals(batches, n, i, upserted)
    {
      var share := TakeShare(batches, n, i);
      var subtotal := UpsertShare(share, upserted);
      total := total + subtotal;
    }
    SharesCoverBatches(batches, n, upserted);
  }

  method TakeShare<P>(batches: seq<seq<P>>, n: nat, i: nat) returns (share: seq<seq<P>>)
    requires n > 0
    ensures share == Share(batches, n, i)
  {
    share := [];
    for idx := 0 to |batches|
      invariant share == Share(batches[..idx], n, i)
    {
      assert batches[..idx + 1][..idx] == batches[..idx];
      if idx % n == i {
        share := share + [batches[idx]];
      }
    }
    assert batches[..|batches|] == batches;
  }

  method UpsertShare<P>(share: seq<seq<P>>, upserted: seq<P> -> int) returns (subtotal: int)
    ensures subtotal == Sum(share, upserted)
  {
    subtotal := 0;
    for idx := 0 to |share|
      invariant subtotal == Sum(share[..idx], upserted)
    {
      assert share[..idx + 1][..idx] == share[..idx];
      subtotal := subtotal + upserted(share[idx]);
    }
    assert share[..|share|] == share;
  }
}
