/** Small facts about sequences and finite sets that every component uses. */
module Prelude {

  datatype Option<+T> = None | Some(value: T)

  /** One past the largest `uint64`. */
  const TWO64: nat := 0x1_0000_0000_0000_0000

  /** `x++` on a `uint64`. */
  function Inc64(x: nat): nat
  {
    if x + 1 < TWO64 then x + 1 else 0
  }

  function Min(a: int, b: int): int
  {
    if a <= b then a else b
  }

  function Max(a: int, b: int): int
  {
    if a <= b then b else a
  }

  ghost predicate Distinct<T>(s: seq<T>)
  {
    forall i, j :: 0 <= i < j < |s| ==> s[i] != s[j]
  }

  function ToSet<T>(s: seq<T>): set<T>
  {
    set x | x in s
  }

  lemma SubsetCard<T>(a: set<T>, b: set<T>)
    requires a <= b
    ensures |a| <= |b|
  {
    assert b == a + (b - a);
  }

  lemma SubsetSameCard<T>(a: set<T>, b: set<T>)
    requires a <= b && |a| >= |b|
    ensures a == b
  {
    SubsetCard(a, b);
    assert b == a + (b - a);
    assert |b - a| == 0;
  }

  lemma {:induction false} DistinctCard<T>(s: seq<T>)
    ensures |ToSet(s)| <= |s|
    ensures Distinct(s) ==> |ToSet(s)| == |s|
  {
    if |s| > 0 {
      var front := s[..|s| - 1];
      DistinctCard(front);
      assert s == front + [s[|s| - 1]];
      assert ToSet(s) == ToSet(front) + {s[|s| - 1]};
      if Distinct(s) {
        assert s[|s| - 1] !in front;
      }
    }
  }

  /** A duplicate-free sequence drawn from another sequence is no longer than it. */
  lemma DistinctWithin<T>(a: seq<T>, b: seq<T>)
    requires Distinct(a) && ToSet(a) <= ToSet(b)
    ensures |a| <= |b|
  {
    DistinctCard(a);
    DistinctCard(b);
    SubsetCard(ToSet(a), ToSet(b));
  }
}
