/** What each tail strategy promises of the points that are stored and loaded. */
module SplitStrategies {
  import opened Arithmetic
  import opened ApplySplit
  import opened SplitTails
  import opened SplitLoads

  /** There is a last chunk that the extent does not fill. */
  predicate HasTail(lo: int, hi: int, f: int)
    requires f > 0
  {
    hi >= lo && (hi - lo + 1) % f != 0
  }

  /** An iteration stores a point past the old bound. */
  ghost predicate StoresPastEnd(h: Handling, lo: int, hi: int, f: int)
    requires f > 0
  {
    exists o, i, x :: Writes(h, lo, hi, f, o, i, x) && x > hi
  }

  ghost predicate StoresBeforeStart(h: Handling, lo: int, hi: int, f: int)
    requires f > 0
  {
    exists o, i, x :: Writes(h, lo, hi, f, o, i, x) && x < lo
  }

  ghost predicate StoresTwice(h: Handling, lo: int, hi: int, f: int)
    requires f > 0
  {
    exists o, i, o', i', x :: Writes(h, lo, hi, f, o, i, x) && Writes(h, lo, hi, f, o', i', x) && (o != o' || i != i')
  }

  /** An iteration whose loads take effect stands for a point past the old bound. */
  predicate LoadsAt(h: Handling, lo: int, hi: int, f: int, o: int, i: int, x: int)
    requires f > 0
  {
    0 <= o < OuterExtent(lo, hi, f) && 0 <= i < f && Loads(h, lo, hi, f, o, i) && Start(h, lo, hi, f, o) + i == x
  }

  ghost predicate LoadsPastEnd(h: Handling, lo: int, hi: int, f: int)
    requires f > 0
  {
    exists o, i, x :: LoadsAt(h, lo, hi, f, o, i, x) && x > hi
  }

  /** An unshifted chunk starts at its multiple of the factor; a shifted one never ends past the bound. */
  lemma {:induction false} StartIs(h: Handling, lo: int, hi: int, f: int, o: int)
    requires f > 0 && 0 <= o < OuterExtent(lo, hi, f)
    ensures !h.Shift? && !h.ShiftBlend? ==> lo <= Start(h, lo, hi, f, o) == o * f + lo
    ensures h.Shift? || h.ShiftBlend? ==> Start(h, lo, hi, f, o) <= hi + 1 - f && (hi + 1 - f >= lo ==> Start(h, lo, hi, f, o) >= lo)
  {
    ChunkBefore(o, OuterExtent(lo, hi, f), f);
  }

  /** The last iteration of the last chunk. */
  lemma {:induction false} LastIteration(lo: int, hi: int, f: int)
    requires f > 0 && HasTail(lo, hi, f)
    ensures var k := OuterExtent(lo, hi, f); k >= 1 && (k - 1) * f + lo + (f - 1) > hi
  {
    var k := OuterExtent(lo, hi, f);
    Chunks(lo, hi, f);
    if k < 1 { AtLeast(1 - k, f); Distribute(1, k, f); }
  }

  /** Only rounding up, with or without guarded loads, stores past the end. */
  lemma {:induction false} StoresPastEndIff(tail: TailStrategy, lo: int, hi: int, f: int)
    requires f > 0
    ensures StoresPastEnd(HandlingOf(tail), lo, hi, f) <==> tail in {RoundUp, PredicateLoads} && HasTail(lo, hi, f)
  {
    hide Start, OuterExtent;
    var h := HandlingOf(tail);
    if tail in {RoundUp, PredicateLoads} && HasTail(lo, hi, f) {
      var k := OuterExtent(lo, hi, f);
      LastIteration(lo, hi, f);
      StartIs(h, lo, hi, f, k - 1);
      assert Writes(h, lo, hi, f, k - 1, f - 1, (k - 1) * f + lo + (f - 1));
    } else {
      forall o, i, x | Writes(h, lo, hi, f, o, i, x) ensures x <= hi {
        if NoTail(h, lo, hi, f) { OwnChunk(h, lo, hi, f, o, i, x); } else { StartIs(h, lo, hi, f, o); }
      }
    }
  }

  /** Only shifting inwards stores before the start, and only an extent smaller than the factor. */
  lemma {:induction false} StoresBeforeStartIff(tail: TailStrategy, lo: int, hi: int, f: int)
    requires f > 0
    ensures StoresBeforeStart(HandlingOf(tail), lo, hi, f) <==> tail == ShiftInwards && 0 < hi - lo + 1 < f
  {
    hide Start, OuterExtent;
    var h := HandlingOf(tail);
    if tail == ShiftInwards && 0 < hi - lo + 1 < f {
      Remainder(hi - lo + 1, 0, hi - lo + 1, f);
      LastIteration(lo, hi, f);
      StartIs(h, lo, hi, f, 0);
      assert Writes(h, lo, hi, f, 0, 0, Start(h, lo, hi, f, 0));
    } else {
      forall o, i, x | Writes(h, lo, hi, f, o, i, x) ensures x >= lo {
        if NoTail(h, lo, hi, f) { OwnChunk(h, lo, hi, f, o, i, x); } else { StartIs(h, lo, hi, f, o); }
      }
    }
  }

  /** An unshifted chunk has its points to itself. */
  lemma {:induction false} UnshiftedOnce(h: Handling, lo: int, hi: int, f: int, o: int, i: int, x: int)
    requires f > 0 && !h.Shift? && !h.ShiftBlend? && Writes(h, lo, hi, f, o, i, x)
    ensures o == (x - lo) / f && i == x - (o * f + lo)
  {
    hide Start;
    StartIs(h, lo, hi, f, o);
    Remainder(x - lo, o, i, f);
  }

  lemma {:induction false} OneChunk(lo: int, hi: int, f: int)
    requires f > 0 && hi - lo + 1 <= f
    ensures OuterExtent(lo, hi, f) <= 1
  {
    var k := OuterExtent(lo, hi, f);
    Chunks(lo, hi, f);
    if k >= 2 { AtLeast(k - 1, f); }
  }

  /** Only shifting inwards stores a point more than once, when there is a chunk for the tail to move over. */
  lemma {:induction false} StoresTwiceIff(tail: TailStrategy, lo: int, hi: int, f: int)
    requires f > 0
    ensures StoresTwice(HandlingOf(tail), lo, hi, f) <==> tail == ShiftInwards && hi - lo + 1 > f && HasTail(lo, hi, f)
  {
    hide Writes, NoTail;
    var h := HandlingOf(tail);
    if tail == ShiftInwards && hi - lo + 1 > f && HasTail(lo, hi, f) {
      TwiceInTail(lo, hi, f);
    } else {
      forall o, i, o', i', x | Writes(h, lo, hi, f, o, i, x) && Writes(h, lo, hi, f, o', i', x) ensures o == o' && i == i' {
        OnlyOnce(tail, lo, hi, f, o, i, x);
        OnlyOnce(tail, lo, hi, f, o', i', x);
      }
    }
  }

  lemma {:induction false} TwiceInTail(lo: int, hi: int, f: int)
    requires f > 0 && hi - lo + 1 > f && HasTail(lo, hi, f)
    ensures StoresTwice(Shift, lo, hi, f)
  {
    var k, e := OuterExtent(lo, hi, f), hi - lo + 1;
    Chunks(lo, hi, f);
    if k < 2 { AtLeast(2 - k, f); Distribute(2, k, f); }
    Distribute(k - 1, 1, f);
    AtLeast(k - 1, f);
    var x := hi + 1 - f;
    assert Writes(Shift, lo, hi, f, k - 1, 0, x);
    assert Writes(Shift, lo, hi, f, k - 2, e - f - (k - 2) * f, x);
  }

  /** The iteration follows from the point. */
  lemma {:induction false} OnlyOnce(tail: TailStrategy, lo: int, hi: int, f: int, o: int, i: int, x: int)
    requires f > 0 && Writes(HandlingOf(tail), lo, hi, f, o, i, x)
    requires !(tail == ShiftInwards && hi - lo + 1 > f && HasTail(lo, hi, f))
    ensures var h := HandlingOf(tail);
      o == (if hi - lo + 1 <= f && h.Shift? then 0 else (x - lo) / f) && i == x - Start(h, lo, hi, f, o)
  {
    var h := HandlingOf(tail);
    if hi - lo + 1 <= f && h.Shift? {
      OneChunk(lo, hi, f);
    } else if NoTail(h, lo, hi, f) {
      OwnChunk(h, lo, hi, f, o, i, x);
    } else {
      UnshiftedOnce(h, lo, hi, f, o, i, x);
    }
  }

  /** No strategy leaves a point out. */
  lemma {:induction false} NothingMissed(tail: TailStrategy, lo: int, hi: int, f: int, x: int) returns (o: int)
    requires f > 0 && lo <= x <= hi
    ensures Writes(HandlingOf(tail), lo, hi, f, o, x - Start(HandlingOf(tail), lo, hi, f, o), x)
  {
    var h := HandlingOf(tail);
    o := (x - lo) / f;
    if NoTail(h, lo, hi, f) {
      PointIsStored(h, lo, hi, f, x);
    } else {
      PointIsStored(Guard, lo, hi, f, x);
      if h.Shift? && x >= hi + 1 - f {
        o := OuterExtent(lo, hi, f) - 1;
        Chunks(lo, hi, f);
      }
    }
  }

  /** Loads pass the end where the loop is rounded up and they are not guarded. */
  lemma {:induction false} LoadsPastEndIff(tail: TailStrategy, lo: int, hi: int, f: int)
    requires f > 0
    ensures LoadsPastEnd(HandlingOf(tail), lo, hi, f)
       <==> tail in {RoundUp, PredicateStores, RoundUpAndBlend} && HasTail(lo, hi, f)
  {
    hide Start, OuterExtent;
    var h := HandlingOf(tail);
    if tail in {RoundUp, PredicateStores, RoundUpAndBlend} && HasTail(lo, hi, f) {
      var k := OuterExtent(lo, hi, f);
      LastIteration(lo, hi, f);
      StartIs(h, lo, hi, f, k - 1);
      assert LoadsAt(h, lo, hi, f, k - 1, f - 1, (k - 1) * f + lo + (f - 1));
    } else {
      forall o, i, x | LoadsAt(h, lo, hi, f, o, i, x) ensures x <= hi {
        StartIs(h, lo, hi, f, o);
        StartIs(Unguarded, lo, hi, f, o);
        if !HasTail(lo, hi, f) && !h.Shift? && !h.ShiftBlend? { OwnChunk(Unguarded, lo, hi, f, o, i, x); }
      }
    }
  }

  /** Only the two blending strategies read what is there before they store. */
  lemma {:induction false} BlendsIff(s: Split)
    requires s.SplitVar?
    ensures (exists r <- Results(s, HandlingOf(s.tail)) :: r.BlendProvides?) <==> s.tail in {ShiftInwardsAndBlend, RoundUpAndBlend}
  {
    var rs := Results(s, HandlingOf(s.tail));
    if s.tail in {ShiftInwardsAndBlend, RoundUpAndBlend} { assert rs[0].BlendProvides?; }
  }
}
