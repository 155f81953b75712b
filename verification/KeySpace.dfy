/** How a new collection's shards divide the 64-bit hash space. */
module KeySpace {
  import opened Prelude

  /** The largest shard count for which the division is shown exact. */
  const MAX_SHARDS: nat := 0x10_0000_0000_0000

  /** A non-negative `float64`, as the exact ratio it stands for. */
  datatype Float = Float(num: nat, den: nat)

  /** `q` is a `float64` quotient of 2^64 by `n`: off by at most one part in 2^53, so `n * q` is off by 2^11. */
  ghost predicate RoundedQuotient(n: nat, q: Float)
  {
    q.den > 0 && (TWO64 - 2048) * q.den <= n * q.num <= (TWO64 + 2048) * q.den
  }

  /** Conversion of a `float64` to `uint64`: truncation, or a platform-chosen value when out of range. */
  function RangeSize(q: Float, outOfRange: nat): nat
  {
    if q.den > 0 && q.num / q.den < TWO64 then q.num / q.den else outOfRange % TWO64
  }

  /** Bounds of shard `i` of `n`, in wrapping 64-bit arithmetic. */
  function StartKey(i: nat, size: nat): nat
  {
    (i * size) % TWO64
  }

  function EndKey(i: nat, n: nat, size: nat): nat
  {
    if i + 1 == n then TWO64 - 1 else ((i + 1) * size - 1) % TWO64
  }

  /** The shard of a key. */
  function Slot(n: nat, size: nat, key: nat): nat
  {
    if n <= 1 || size == 0 then 0 else Min(key / size, n - 1)
  }

  lemma MulMono(a: nat, b: nat, c: nat)
    requires a <= b
    ensures a * c <= b * c
  {
  }

  lemma MulGap(b: int, gap: nat, den: nat)
    requires gap > 0
    ensures b * den + den <= (b + gap) * den
  {
    MulMono(1, gap, den);
    assert (b + gap) * den == b * den + gap * den;
  }

  lemma Cancel(a: int, b: int, den: nat)
    requires den > 0 && a * den <= b * den
    ensures a <= b
  {
    if b < a {
      MulGap(b, a - b, den);
    }
  }

  /** Truncation loses less than one: `n` times the truncated quotient stays within `n` of `n` times the quotient. */
  lemma TruncationLoss(n: nat, num: nat, den: nat, lo: int, hi: int)
    requires den > 0 && lo * den <= n * num <= hi * den
    ensures n * (num / den) <= hi && lo <= n * (num / den) + n
  {
    var size := num / den;
    assert num == size * den + num % den;
    assert n * num == (n * size) * den + n * (num % den) by {
      assert n * (size * den + num % den) == n * (size * den) + n * (num % den);
      assert n * (size * den) == (n * size) * den;
    }
    MulMono(num % den, den, n);
    assert n * den == den * n && n * (num % den) == (num % den) * n;
    Cancel(n * size, hi, den);
    assert (n * size + n) * den == (n * size) * den + n * den;
    Cancel(lo, n * size + n, den);
  }

  /** The rounded range size is large enough that the rounding cannot push a kept bound past 2^64. */
  lemma SizeBounds(n: nat, q: Float, outOfRange: nat)
    requires 2 <= n <= MAX_SHARDS && RoundedQuotient(n, q)
    ensures var size := RangeSize(q, outOfRange);
      4095 <= size && TWO64 - 2048 - n <= n * size <= TWO64 + 2048 && (n - 1) * size < TWO64
  {
    var size := q.num / q.den;
    TruncationLoss(n, q.num, q.den, TWO64 - 2048, TWO64 + 2048);
    assert 4095 <= size by {
      assert n * (size + 1) == n * size + n;
      MulMono(n, MAX_SHARDS, size + 1);
    }
    assert size < TWO64 by {
      MulMono(2, n, size);
    }
    assert (n - 1) * size == n * size - size;
  }

  lemma ModSmall(x: nat)
    requires x < TWO64
    ensures x % TWO64 == x
  {
  }

  /** No bound that is kept wraps around. */
  lemma BoundsDoNotWrap(n: nat, q: Float, outOfRange: nat, i: nat)
    requires 1 <= n <= MAX_SHARDS && RoundedQuotient(n, q) && i < n
    ensures var size := RangeSize(q, outOfRange);
      && StartKey(i, size) == i * size < TWO64
      && EndKey(i, n, size) < TWO64
      && (i + 1 < n ==> EndKey(i, n, size) == (i + 1) * size - 1 && size > 0)
  {
    var size := RangeSize(q, outOfRange);
    if n > 1 {
      SizeBounds(n, q, outOfRange);
      ProductFits(i, n - 1, size);
      if i + 1 < n { ProductFits(i + 1, n - 1, size); }
    }
  }

  lemma ProductFits(i: nat, top: nat, size: nat)
    requires i <= top && top * size < TWO64
    ensures (i * size) % TWO64 == i * size < TWO64
    ensures i > 0 && size > 0 ==> (i * size - 1) % TWO64 == i * size - 1
  {
    MulMono(i, top, size);
    ModSmall(i * size);
    if i > 0 && size > 0 {
      MulMono(1, i, size);
      ModSmall(i * size - 1);
    }
  }

  lemma SlotArithmetic(n: nat, size: nat, key: nat, i: nat)
    requires n >= 2 && size > 0 && i < n
    ensures Slot(n, size, key) < n
    ensures i == Slot(n, size, key) <==> i * size <= key && (i + 1 < n ==> key <= (i + 1) * size - 1)
  {
    var d := key / size;
    assert d * size <= key < (d + 1) * size by {
      assert key == size * d + key % size;
    }
    if i < d { MulMono(i + 1, d, size); }
    if i > d { MulMono(d + 1, i, size); }
    if i < n - 1 && d >= n - 1 { MulMono(i + 1, d, size); }
    if i == n - 1 && d >= n - 1 { MulMono(n - 1, d, size); }
  }

  /** The ranges partition the key space: every key lies in the range of one shard and of no other. */
  lemma RangesPartition(n: nat, q: Float, outOfRange: nat, key: nat, i: nat)
    requires 1 <= n <= MAX_SHARDS && RoundedQuotient(n, q) && key < TWO64 && i < n
    ensures var size := RangeSize(q, outOfRange);
      && Slot(n, size, key) < n
      && (StartKey(i, size) <= key <= EndKey(i, n, size) <==> i == Slot(n, size, key))
  {
    var size := RangeSize(q, outOfRange);
    BoundsDoNotWrap(n, q, outOfRange, i);
    if n >= 2 {
      SizeBounds(n, q, outOfRange);
      SlotArithmetic(n, size, key, i);
    }
  }

  /** The first range begins at zero, the last ends at the last key, each other ends just before the next begins, and all
      but the last are a fair share of the keys, up to the rounding. */
  lemma RangesAreFair(n: nat, q: Float, outOfRange: nat, i: nat)
    requires 1 <= n <= MAX_SHARDS && RoundedQuotient(n, q) && i < n
    ensures var size := RangeSize(q, outOfRange);
      && (i == 0 ==> StartKey(i, size) == 0) && (i + 1 == n ==> EndKey(i, n, size) == TWO64 - 1)
      && (i + 1 < n ==>
            && StartKey(i + 1, size) == EndKey(i, n, size) + 1
            && TWO64 - 2048 - n <= n * (EndKey(i, n, size) + 1 - StartKey(i, size)) <= TWO64 + 2048)
  {
    var size := RangeSize(q, outOfRange);
    BoundsDoNotWrap(n, q, outOfRange, i);
    if i + 1 < n {
      BoundsDoNotWrap(n, q, outOfRange, i + 1);
      SizeBounds(n, q, outOfRange);
      assert EndKey(i, n, size) + 1 - StartKey(i, size) == size by { assert (i + 1) * size == i * size + size; }
    }
  }
}
