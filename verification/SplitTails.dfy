/** Which ways of handling a tail store every point of the old loop exactly once. */
module SplitTails {
  import opened Arithmetic
  import opened ApplySplit

  function OuterExtent(lo: int, hi: int, f: int): int
    requires f > 0
  {
    (hi - lo + f) / f
  }

  /** Where the inner loop starts. */
  function Start(h: Handling, lo: int, hi: int, f: int, o: int): int {
    if (h.Shift? || h.ShiftBlend?) && hi + 1 - f <= o * f + lo then hi + 1 - f else o * f + lo
  }

  function Unwanted(lo: int, hi: int, f: int): int
    requires f > 0
  {
    (0 - (hi - lo + 1)) % f
  }

  /** Whether an iteration's store takes effect. */
  predicate Stores(h: Handling, lo: int, hi: int, f: int, o: int, i: int)
    requires f > 0
  {
    match h
    case Guard => Start(h, lo, hi, f, o) + i <= hi
    case GuardStores => Start(h, lo, hi, f, o) + i <= hi
    case ShiftBlend => Start(h, lo, hi, f, o) == o * f + lo || Unwanted(lo, hi, f) <= i
    case RoundBlend => o < OuterExtent(lo, hi, f) - 1 || i < f - Unwanted(lo, hi, f)
    case Unguarded => true
    case GuardCalls => true
    case Shift => true
  }

  /** Iteration (o, i) stores point `x`. */
  predicate Writes(h: Handling, lo: int, hi: int, f: int, o: int, i: int, x: int)
    requires f > 0
  {
    0 <= o < OuterExtent(lo, hi, f) && 0 <= i < f && Stores(h, lo, hi, f, o, i) && Start(h, lo, hi, f, o) + i == x
  }

  ghost predicate WritesOnce(h: Handling, lo: int, hi: int, f: int, x: int)
    requires f > 0
  {
    && (exists o, i :: Writes(h, lo, hi, f, o, i, x))
    && (forall o, i, o', i' :: Writes(h, lo, hi, f, o, i, x) && Writes(h, lo, hi, f, o', i', x) ==> o == o' && i == i')
  }

  /** The loops store every point from `lo` to `hi` exactly once, and nothing else. */
  ghost predicate Exact(h: Handling, lo: int, hi: int, f: int)
    requires f > 0
  {
    && (forall x :: lo <= x <= hi ==> WritesOnce(h, lo, hi, f, x))
    && (forall o, i, x :: Writes(h, lo, hi, f, o, i, x) ==> lo <= x <= hi)
  }

  predicate Masked(h: Handling) { h.Guard? || h.GuardStores? || h.ShiftBlend? || h.RoundBlend? }

  /** What a caller can check: a masked tail, an empty loop, or a factor that divides the extent. */
  predicate NoTail(h: Handling, lo: int, hi: int, f: int)
    requires f > 0
  {
    Masked(h) || hi < lo || (hi - lo + 1) % f == 0
  }

  /** The outer loop rounds the extent up to whole chunks. */
  lemma {:induction false} Chunks(lo: int, hi: int, f: int)
    requires f > 0
    ensures var k, e := OuterExtent(lo, hi, f), hi - lo + 1;
      (hi < lo ==> k <= 0) && k * f >= e > (k - 1) * f && k * f - f == (k - 1) * f
      && Unwanted(lo, hi, f) == k * f - e && (e % f == 0 <==> k * f == e)
  {
    var k, e := OuterExtent(lo, hi, f), hi - lo + 1;
    var r := (hi - lo + f) % f;
    Distribute(k, 1, f);
    assert hi - lo + f == f * k + r;
    Commute(f, k);
    Remainder(-e, -k, f - 1 - r, f);
    Negate(k, f);
    if k * f == e { Multiple(k, f); }
    if e % f == 0 {
      Commute(f, e / f);
      SameMultiple(e / f, k, f);
    }
    if hi < lo && k >= 1 { AtLeast(k, f); }
  }

  lemma {:induction false} Negate(k: int, f: int)
    ensures (-k) * f == -(k * f)
  {
  }

  lemma {:induction false} SameMultiple(q: int, k: int, f: int)
    requires f > 0 && k * f - f < q * f <= k * f
    ensures q == k
  {
    Distribute(k, q, f);
    if k - q >= 1 { AtLeast(k - q, f); }
    if q - k >= 1 { Distribute(q, k, f); AtLeast(q - k, f); }
  }

  /** Each chunk's stores stay within the chunk. */
  lemma {:induction false} OwnChunk(h: Handling, lo: int, hi: int, f: int, o: int, i: int, x: int)
    requires f > 0 && NoTail(h, lo, hi, f) && Writes(h, lo, hi, f, o, i, x)
    ensures lo <= x <= hi && o == (x - lo) / f && i == x - Start(h, lo, hi, f, o)
  {
    var k := OuterExtent(lo, hi, f);
    Chunks(lo, hi, f);
    ChunkBefore(o, k, f);
    assert o * f <= x - lo < o * f + f;
    Remainder(x - lo, o, x - lo - o * f, f);
  }

  /** A chunk before the last ends by the last one's start. */
  lemma {:induction false} ChunkBefore(o: int, k: int, f: int)
    requires 0 <= o < k && f > 0
    ensures 0 <= o * f && o * f + f <= k * f
    ensures o < k - 1 ==> o * f + f <= k * f - f
  {
    Distribute(k, o, f);
    Distribute(k - 1, o, f);
    Distribute(k, 1, f);
    AtLeast(k - o, f);
    if o < k - 1 { AtLeast(k - 1 - o, f); }
    if o > 0 { AtLeast(o, f); }
  }

  /** Every point is stored by the chunk it falls in. */
  lemma {:induction false} PointIsStored(h: Handling, lo: int, hi: int, f: int, x: int)
    requires f > 0 && NoTail(h, lo, hi, f) && lo <= x <= hi
    ensures var o := (x - lo) / f; Writes(h, lo, hi, f, o, x - Start(h, lo, hi, f, o), x)
  {
    var k, o := OuterExtent(lo, hi, f), (x - lo) / f;
    Chunks(lo, hi, f);
    assert x - lo == f * o + (x - lo) % f;
    Commute(f, o);
    if o >= k { Distribute(o, k, f); if o > k { AtLeast(o - k, f); } }
    if o < 0 { AtLeast(-o, f); Negate(o, f); }
    ChunkBefore(o, k, f);
  }

  lemma {:induction false} NoTailIsExact(h: Handling, lo: int, hi: int, f: int)
    requires f > 0 && NoTail(h, lo, hi, f)
    ensures Exact(h, lo, hi, f)
  {
    hide Writes, NoTail;
    forall x | lo <= x <= hi ensures WritesOnce(h, lo, hi, f, x) {
      PointIsStored(h, lo, hi, f, x);
      forall o, i, o', i' | Writes(h, lo, hi, f, o, i, x) && Writes(h, lo, hi, f, o', i', x) ensures o == o' && i == i' {
        OwnChunk(h, lo, hi, f, o, i, x);
        OwnChunk(h, lo, hi, f, o', i', x);
      }
    }
    forall o, i, x | Writes(h, lo, hi, f, o, i, x) ensures lo <= x <= hi { OwnChunk(h, lo, hi, f, o, i, x); }
  }

  /** Rounding up stores past the end; shifting inwards stores some points twice, or before the start. */
  lemma {:induction false} TailIsInexact(h: Handling, lo: int, hi: int, f: int)
    requires f > 0 && !NoTail(h, lo, hi, f)
    ensures !Exact(h, lo, hi, f)
  {
    var k, e := OuterExtent(lo, hi, f), hi - lo + 1;
    Chunks(lo, hi, f);
    if k < 1 { AtLeast(1 - k, f); Distribute(1, k, f); }
    if h.Shift? && k >= 2 {
      Distribute(k - 1, 1, f);
      var x := hi + 1 - f;
      assert Writes(h, lo, hi, f, k - 1, 0, x);
      assert Writes(h, lo, hi, f, k - 2, e - f - (k - 2) * f, x);
      assert !WritesOnce(h, lo, hi, f, x);
      AtLeast(k - 1, f);
    } else if h.Shift? {
      assert Writes(h, lo, hi, f, 0, 0, hi + 1 - f);
    } else {
      assert Writes(h, lo, hi, f, k - 1, f - 1, lo + k * f - 1);
    }
  }

  /** A split is exact exactly when its tail is masked, there is nothing to do, or the factor divides. */
  lemma {:induction false} ExactIff(h: Handling, lo: int, hi: int, f: int)
    requires f > 0
    ensures Exact(h, lo, hi, f) <==> NoTail(h, lo, hi, f)
  {
    if NoTail(h, lo, hi, f) { NoTailIsExact(h, lo, hi, f); } else { TailIsInexact(h, lo, hi, f); }
  }

  // ---- Fusing ----

  /** The fused loop's iterations, and the pair each stands for. */
  function FusedExtent(m: int, n: int): int { m * n }

  predicate Visits(m: int, n: int, t: int, o: int, i: int) {
    0 <= t < FusedExtent(m, n) && (if m == 0 then i == 0 && o == 0 else i == t % m && o == t / m)
  }

  ghost predicate VisitedOnce(m: int, n: int, o: int, i: int) {
    && (exists t :: Visits(m, n, t, o, i))
    && (forall t, t' :: Visits(m, n, t, o, i) && Visits(m, n, t', o, i) ==> t == t')
  }

  /** The fused loop, over `m` inner and `n` outer values, visits every pair exactly once and no other. */
  ghost predicate FuseIsExact(m: int, n: int) {
    && (forall o, i :: 0 <= o < n && 0 <= i < m ==> VisitedOnce(m, n, o, i))
    && (forall t, o, i :: Visits(m, n, t, o, i) ==> 0 <= o < n && 0 <= i < m)
  }

  lemma {:induction false} VisitIsInRange(m: int, n: int, t: int, o: int, i: int)
    requires !(m < 0 && n < 0) && Visits(m, n, t, o, i)
    ensures 0 <= o < n && 0 <= i < m && t == o * m + i
  {
    if m > 0 {
      Commute(m, o);
      assert t == o * m + i;
      if o >= n { Distribute(o, n, m); Commute(m, n); if o > n { AtLeast(o - n, m); } }
      if o < 0 { AtLeast(-o, m); Negate(o, m); }
    } else if m < 0 {
      NegativeProduct(m, n);
    }
  }

  lemma {:induction false} NegativeProduct(m: int, n: int)
    requires m < 0 <= n
    ensures m * n <= 0
  {
    Negate(m, n);
    assert (-m) * n >= 0;
  }

  lemma {:induction false} PairIsVisited(m: int, n: int, o: int, i: int)
    requires 0 <= o < n && 0 <= i < m
    ensures Visits(m, n, o * m + i, o, i)
  {
    Remainder(o * m + i, o, i, m);
    ChunkBefore(o, n, m);
    Commute(m, n);
  }

  /** Fusing is exact unless both extents are negative: then their product is a positive extent. */
  lemma {:induction false} FuseExactIff(m: int, n: int)
    ensures FuseIsExact(m, n) <==> !(m < 0 && n < 0)
  {
    hide Visits;
    if m < 0 && n < 0 {
      BothNegative(m, n);
    } else {
      forall t, o, i | Visits(m, n, t, o, i) ensures 0 <= o < n && 0 <= i < m { VisitIsInRange(m, n, t, o, i); }
      forall o, i | 0 <= o < n && 0 <= i < m ensures VisitedOnce(m, n, o, i) {
        PairIsVisited(m, n, o, i);
        forall t, t' | Visits(m, n, t, o, i) && Visits(m, n, t', o, i) ensures t == t' {
          VisitIsInRange(m, n, t, o, i);
          VisitIsInRange(m, n, t', o, i);
        }
      }
    }
  }

  lemma {:induction false} BothNegative(m: int, n: int)
    requires m < 0 && n < 0
    ensures Visits(m, n, 0, 0, 0)
  {
    AtLeast(-m, -n);
    assert (-m) * (-n) == m * n;
    assert 0 / m == 0 && 0 % m == 0;
  }
}
