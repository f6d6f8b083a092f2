/** Rewriting vector loads into aligned loads, slices and concatenations. */
module AlignLoads {
  import opened Arithmetic
  import opened Options

  /** What is known of a base: it is `remainder` modulo `modulus`, or exactly `remainder` when the modulus is zero. */
  datatype ModulusRemainder = ModulusRemainder(modulus: nat, remainder: int)

  /** The lanes of an index: a ramp of a constant stride, or lanes nothing is known of. */
  datatype Index = Ramp(base: int, stride: int, lanes: nat) | Indirect(offsets: seq<int>)

  /** A load of `bytes` per lane; some loads are never rewritten. */
  datatype Load = Load(index: Index, bytes: nat, alignment: ModulusRemainder, predicated: bool, external: bool,
                       hostAligned: bool)

  datatype Vec = Lane(load: Load) | Slice(v: Vec, begin: int, stride: int, size: nat) | Concat(parts: seq<Vec>)

  type Memory = int -> int

  function LanesOf(i: Index): nat { if i.Ramp? then i.lanes else |i.offsets| }

  function LoadValues(i: Index, mem: Memory): (r: seq<int>)
    ensures |r| == LanesOf(i)
  {
    match i
    case Ramp(base, stride, lanes) => seq(lanes, k => mem(base + k * stride))
    case Indirect(offsets) => seq(|offsets|, k requires 0 <= k < |offsets| => mem(offsets[k]))
  }

  function Lanes(v: Vec): nat {
    match v
    case Lane(load) => LanesOf(load.index)
    case Slice(_, _, _, size) => size
    case Concat(parts) => TotalLanes(parts)
  }

  function TotalLanes(parts: seq<Vec>): nat { if parts == [] then 0 else Lanes(parts[0]) + TotalLanes(parts[1..]) }

  /** Every slice picks lanes its vector has. */
  predicate InRange(v: Vec) {
    match v
    case Lane(_) => true
    case Slice(w, begin, stride, size) => InRange(w) && forall k :: 0 <= k < size ==> 0 <= begin + k * stride < Lanes(w)
    case Concat(parts) => AllInRange(parts)
  }

  predicate AllInRange(parts: seq<Vec>) { parts == [] || (InRange(parts[0]) && AllInRange(parts[1..])) }

  /** The value of each lane. */
  function Values(v: Vec, mem: Memory): (r: seq<int>)
    requires InRange(v)
    ensures |r| == Lanes(v)
  {
    match v
    case Lane(load) => LoadValues(load.index, mem)
    case Slice(w, begin, stride, size) => Picked(Values(w, mem), begin, stride, size)
    case Concat(parts) => AllValues(parts, mem)
  }

  function AllValues(parts: seq<Vec>, mem: Memory): (r: seq<int>)
    requires AllInRange(parts)
    ensures |r| == TotalLanes(parts)
  {
    if parts == [] then [] else Values(parts[0], mem) + AllValues(parts[1..], mem)
  }

  function Picked(vs: seq<int>, begin: int, stride: int, size: nat): (r: seq<int>)
    requires forall k :: 0 <= k < size ==> 0 <= begin + k * stride < |vs|
    ensures |r| == size
  {
    seq(size, k requires 0 <= k < size => vs[begin + k * stride])
  }

  function MakeSlice(v: Vec, begin: int, stride: int, size: nat): Vec {
    if begin == 0 && size == Lanes(v) && stride == 1 then v else Slice(v, begin, stride, size)
  }

  function MakeConcat(parts: seq<Vec>): Vec
    requires parts != []
  {
    if |parts| == 1 then parts[0] else Concat(parts)
  }

  // ---- Alignment ----

  function Shifted(a: ModulusRemainder, delta: int): ModulusRemainder {
    ModulusRemainder(a.modulus, if a.modulus == 0 then a.remainder + delta else (a.remainder + delta) % a.modulus)
  }

  predicate Describes(a: ModulusRemainder, base: int) {
    if a.modulus == 0 then base == a.remainder else base % a.modulus == a.remainder % a.modulus
  }

  /** Whether the offset from an aligned address is known. */
  predicate KnownOffset(load: Load, native: nat)
    requires native > 0
  {
    load.index.Ramp? && load.hostAligned && load.alignment.modulus % native == 0
  }

  /** The offset, or zero when it is not known. */
  function OffsetOf(load: Load, native: nat): (r: nat)
    requires native > 0
    ensures r < native
  {
    if KnownOffset(load, native) then load.alignment.remainder % native else 0
  }

  lemma {:induction false} SameModulo(x: int, y: int, m: nat, n: nat)
    requires m > 0 && n > 0 && m % n == 0 && x % m == y % m
    ensures x % n == y % n
  {
    var k := m / n;
    assert m == n * k && x == m * (x / m) + x % m && y == m * (y / m) + y % m;
    var qx, qy, r := x / m, y / m, x % m;
    assert x == (k * qx) * n + r by { Regroup(n, k, qx); }
    assert y == (k * qy) * n + r by { Regroup(n, k, qy); }
    Multiples(k * qx, r, n);
    Multiples(k * qy, r, n);
  }

  lemma {:induction false} Multiples(q: int, r: int, n: nat)
    requires n > 0
    ensures (q * n + r) % n == r % n
  {
    var d := r / n;
    Distribute(q, d, n);
    assert r == n * d + r % n;
    Commute(n, d);
    Remainder(q * n + r, q + d, r % n, n);
  }

  /** A known offset is the base's distance from an aligned address. */
  lemma {:induction false} OffsetIsRight(load: Load, native: nat)
    requires native > 0 && KnownOffset(load, native) && Describes(load.alignment, load.index.base)
    ensures load.index.base % native == OffsetOf(load, native)
  {
    if load.alignment.modulus > 0 { SameModulo(load.index.base, load.alignment.remainder, load.alignment.modulus, native); }
  }

  lemma {:induction false} UnknownIsZero(load: Load, native: nat)
    requires native > 0
    ensures !KnownOffset(load, native) ==> OffsetOf(load, native) == 0
  {
  }

  /** Shifting the base shifts what is known of it. */
  lemma {:induction false} ShiftDescribes(a: ModulusRemainder, base: int, delta: int)
    requires Describes(a, base)
    ensures Describes(Shifted(a, delta), base + delta)
  {
    if a.modulus > 0 { ShiftModulo(a.remainder, base, delta, a.modulus); }
  }

  lemma {:induction false} ShiftModulo(r: int, base: int, delta: int, m: nat)
    requires m > 0 && base % m == r % m
    ensures (base + delta) % m == ((r + delta) % m) % m
  {
    SameSum(base, r, delta, m);
    ModuloTwice(r + delta, m);
  }

  lemma {:induction false} SameSum(x: int, y: int, delta: int, m: nat)
    requires m > 0 && x % m == y % m
    ensures (x + delta) % m == (y + delta) % m
  {
    var qx, qy := x / m, y / m;
    assert x == m * qx + x % m && y == m * qy + y % m;
    Commute(m, qx);
    Commute(m, qy);
    Multiples(qx, x % m + delta, m);
    Multiples(qy, x % m + delta, m);
  }

  lemma {:induction false} ShiftedRemainder(r: int, delta: int, m: nat, n: nat)
    requires n > 0 && m % n == 0
    ensures (if m == 0 then r + delta else (r + delta) % m) % n == (r % n + delta) % n
  {
    Multiples(r / n, r % n, n);
    SameSum(r % n, r, delta, n);
    if m > 0 { ModuloTwice(r + delta, m); SameModulo((r + delta) % m, r + delta, m, n); }
  }

  lemma {:induction false} ModuloTwice(x: int, m: nat)
    requires m > 0
    ensures (x % m) % m == x % m
  {
    Remainder(x % m, 0, x % m, m);
  }

  /** The offset after a shift. */
  lemma {:induction false} ShiftOffset(load: Load, load': Load, native: nat, delta: int)
    requires native > 0 && load.index.Ramp? && load'.index.Ramp? && load'.hostAligned == load.hostAligned
    requires load'.alignment == Shifted(load.alignment, delta)
    ensures KnownOffset(load', native) == KnownOffset(load, native)
    ensures KnownOffset(load, native) ==> OffsetOf(load', native) == (OffsetOf(load, native) + delta) % native
  {
    if KnownOffset(load, native) { ShiftedRemainder(load.alignment.remainder, delta, load.alignment.modulus, native); }
  }

  // ---- The rewrite ----

  /** Loads that the rewrite does not touch: no plain vectors of a stride of one to four, or too small. */
  predicate LeftAlone(load: Load, alignment: nat, minBytes: nat)
    requires load.bytes > 0
  {
    load.predicated || LanesOf(load.index) <= 1 || load.external || alignment % load.bytes != 0
    || load.bytes * LanesOf(load.index) <= minBytes || !load.index.Ramp? || !(1 <= load.index.stride <= 4)
  }

  /** A ramp of one lane is an internal error. */
  function MakeRamp(base: int, stride: int, lanes: nat): (r: Option<Index>)
    ensures r.Some? <==> lanes > 1
  {
    if lanes > 1 then Some(Ramp(base, stride, lanes)) else None
  }

  /** Cutting the dense load into native vectors leaves a single lane over. */
  predicate LeavesOneLane(load: Load, alignment: nat, minBytes: nat)
    requires load.bytes > 0
  {
    && !LeftAlone(load, alignment, minBytes)
    && var native, dense := alignment / load.bytes, load.index.lanes * load.index.stride;
       native > 0 && dense > native && (native == 1 || dense % native == 1)
  }

  /** 128-byte vectors of 4-byte lanes: dense loads of 33 lanes, and of 11 lanes at stride 3, are not rewritten. */
  lemma {:induction false} ThirtyThreeLanes(base: int, a: ModulusRemainder, minBytes: nat)
    requires minBytes < 44
    ensures LeavesOneLane(Load(Ramp(base, 1, 33), 4, a, false, false, true), 128, minBytes)
    ensures LeavesOneLane(Load(Ramp(base, 3, 11), 4, a, false, false, true), 128, minBytes)
  {
  }

  /** Loads that are rewritten again are closer to being aligned native vectors. */
  function Rank(load: Load, alignment: nat, minBytes: nat): (r: nat)
    requires load.bytes > 0
    ensures r <= 6
  {
    if LeftAlone(load, alignment, minBytes) || alignment / load.bytes == 0 then 0
    else if load.index.stride != 1 then 6
    else
      var native := alignment / load.bytes;
      var late := if OffsetOf(load, native) != 0 then 3 else 0;
      late + if load.index.lanes > native then 2 else if load.index.lanes < native then 1 else 0
  }

  /** The vector has exactly the values of the load's lanes. */
  ghost predicate Means(v: Vec, i: Index) {
    InRange(v) && Lanes(v) == LanesOf(i) && forall mem: Memory :: Values(v, mem) == LoadValues(i, mem)
  }

  /** All that is loaded are aligned native vectors, and loads that are left alone. */
  predicate AllAligned(v: Vec, alignment: nat, minBytes: nat) {
    match v
    case Lane(load) =>
      load.bytes > 0 && alignment / load.bytes > 0
      && (LeftAlone(load, alignment, minBytes)
          || (load.index.stride == 1 && load.index.lanes == alignment / load.bytes && load.index.base % (alignment / load.bytes) == 0))
    case Slice(w, _, _, _) => AllAligned(w, alignment, minBytes)
    case Concat(parts) => AllPartsAligned(parts, alignment, minBytes)
  }

  predicate AllPartsAligned(parts: seq<Vec>, alignment: nat, minBytes: nat) {
    parts == [] || (AllAligned(parts[0], alignment, minBytes) && AllPartsAligned(parts[1..], alignment, minBytes))
  }

  // ---- What is read ----

  /** Where the native vectors start and end that cover the load's lanes and those in between: back to the aligned
      address where the offset is known, and else from the load's own. */
  function ReadFrom(load: Load, native: nat): int
    requires native > 0 && load.index.Ramp?
  {
    load.index.base - OffsetOf(load, native)
  }

  function ReadTo(load: Load, native: nat): (r: int)
    requires native > 0 && load.index.Ramp?
    ensures r >= load.index.base + load.index.lanes * load.index.stride > r - native
    ensures (r - ReadFrom(load, native)) % native == 0
  {
    var span := OffsetOf(load, native) + load.index.lanes * load.index.stride;
    assert load.index.lanes * load.index.stride + load.index.base == span + ReadFrom(load, native);
    UpTo(span, native);
    ReadFrom(load, native) + (span + native - 1) / native * native
  }

  lemma {:induction false} UpTo(span: int, native: nat)
    requires native > 0
    ensures var r := (span + native - 1) / native * native; r >= span > r - native && r % native == 0
  {
    var q := (span + native - 1) / native;
    Commute(q, native);
    Multiple(q, native);
  }

  /** Multiples of the native vector that are more than one behind are two behind or more. */
  lemma {:induction false} WholeVectors(lo: int, hi: int, native: nat, count: nat)
    requires native > 0 && (hi - lo) % native == 0 && hi - lo > (count - 1) * native
    ensures hi - lo >= count * native
  {
    var q := (hi - lo) / native;
    Commute(q, native);
    Commute(count - 1, native);
    Steps(native, q, count - 1);
  }

  /** A load of the same buffer whose index and alignment are the only change: right if they were, and a vector's if
      that was. */
  predicate SameBuffer(part: Load, load: Load) {
    && part == load.(index := part.index, alignment := part.alignment) && (Truthful(load) ==> Truthful(part))
    && (LanesOf(load.index) > 1 ==> LanesOf(part.index) > 1)
  }

  /** All that is loaded is of the same buffer and between the two addresses. */
  predicate Within(v: Vec, load: Load, lo: int, hi: int) {
    match v
    case Lane(part) =>
      SameBuffer(part, load) && part.index.Ramp? && lo <= part.index.base
      && part.index.base + part.index.lanes * part.index.stride <= hi
    case Slice(w, _, _, _) => Within(w, load, lo, hi)
    case Concat(parts) => AllWithin(parts, load, lo, hi)
  }

  predicate AllWithin(parts: seq<Vec>, load: Load, lo: int, hi: int) {
    parts == [] || (Within(parts[0], load, lo, hi) && AllWithin(parts[1..], load, lo, hi))
  }

  /** What lies within a narrower stretch of a shifted load. */
  lemma {:induction false} Widen(v: Vec, part: Load, load: Load, lo: int, hi: int, lo': int, hi': int)
    requires Within(v, part, lo', hi') && SameBuffer(part, load) && lo <= lo' && hi' <= hi
    ensures Within(v, load, lo, hi)
  {
    match v
    case Lane(_) =>
    case Slice(w, _, _, _) => Widen(w, part, load, lo, hi, lo', hi');
    case Concat(parts) => WidenAll(parts, part, load, lo, hi, lo', hi');
  }

  lemma {:induction false} WidenAll(parts: seq<Vec>, part: Load, load: Load, lo: int, hi: int, lo': int, hi': int)
    requires AllWithin(parts, part, lo', hi') && SameBuffer(part, load) && lo <= lo' && hi' <= hi
    ensures AllWithin(parts, load, lo, hi)
  {
    if parts != [] {
      Widen(parts[0], part, load, lo, hi, lo', hi');
      WidenAll(parts[1..], part, load, lo, hi, lo', hi');
    }
  }

  lemma {:induction false} WithinSlice(v: Vec, begin: int, stride: int, size: nat, load: Load, lo: int, hi: int)
    ensures Within(MakeSlice(v, begin, stride, size), load, lo, hi) == Within(v, load, lo, hi)
  {
  }

  lemma {:induction false} WithinConcat(parts: seq<Vec>, load: Load, lo: int, hi: int)
    requires parts != []
    ensures Within(MakeConcat(parts), load, lo, hi) == AllWithin(parts, load, lo, hi)
  {
    if |parts| == 1 { assert parts[1..] == []; }
  }

  lemma {:induction false} WithinAppend(parts: seq<Vec>, v: Vec, load: Load, lo: int, hi: int)
    ensures AllWithin(parts + [v], load, lo, hi) <==> AllWithin(parts, load, lo, hi) && Within(v, load, lo, hi)
  {
    if parts == [] {
      assert parts + [v] == [v] && [v][1..] == [];
    } else {
      assert (parts + [v])[1..] == parts[1..] + [v];
      WithinAppend(parts[1..], v, load, lo, hi);
    }
  }

  /** Nothing more is loaded than the native vectors over the load's stretch. */
  predicate ReadsItsOwn(v: Vec, load: Load, native: nat)
    requires native > 0
  {
    load.index.Ramp? && load.index.stride > 0 ==> Within(v, load, ReadFrom(load, native), ReadTo(load, native))
  }

  /** The stretch of a load made for another lies inside the other's when it ends inside, a whole number of native
      vectors from its start. */
  lemma {:induction false} StretchInside(v: Vec, part: Load, load: Load, native: nat)
    requires native > 0 && part.index.Ramp? && load.index.Ramp? && part.index.stride > 0 && SameBuffer(part, load)
    requires ReadsItsOwn(v, part, native)
    requires var lo, lo' := ReadFrom(load, native), ReadFrom(part, native); lo <= lo' && (lo' - lo) % native == 0
    requires part.index.base + part.index.lanes * part.index.stride <= ReadTo(load, native)
    ensures Within(v, load, ReadFrom(load, native), ReadTo(load, native))
  {
    hide Within, SameBuffer, OffsetOf, ReadFrom, ReadTo;
    var lo, lo', hi, hi' := ReadFrom(load, native), ReadFrom(part, native), ReadTo(load, native), ReadTo(part, native);
    SameGrid(lo, lo', hi, hi', native);
    Widen(v, part, load, lo, hi, lo', hi');
  }

  lemma {:induction false} SameGrid(lo: int, lo': int, hi: int, hi': int, native: nat)
    requires native > 0 && (lo' - lo) % native == 0 && (hi - lo) % native == 0 && (hi' - lo') % native == 0 && hi' - native < hi
    ensures hi' <= hi
  {
    var a, b, c := (hi - lo) / native, (hi' - lo') / native, (lo' - lo) / native;
    assert hi == lo + native * a && hi' == lo' + native * b && lo' == lo + native * c;
    Steps(native, b + c, a);
  }

  lemma {:induction false} Steps(n: nat, x: int, y: int)
    requires n > 0
    ensures n * x <= n * y || n * x >= n * y + n
  {
    Commute(n, x - y);
    if x > y { Scale(1, x - y, n); } else { Scale(0, y - x, n); }
  }

  lemma {:induction false} SliceMeans(v: Vec, base: int, lanes: nat, begin: nat, stride: nat, size: nat)
    requires Means(v, Ramp(base, 1, lanes)) && stride > 0 && (size > 0 ==> begin + (size - 1) * stride < lanes)
    ensures Means(MakeSlice(v, begin, stride, size), Ramp(base + begin, stride, size))
  {
    var s, i := MakeSlice(v, begin, stride, size), Ramp(base + begin, stride, size);
    forall k | 0 <= k < size ensures 0 <= begin + k * stride < Lanes(v) { Scale(k, size - 1, stride); }
    forall mem: Memory ensures Values(s, mem) == LoadValues(i, mem) {
      assert Values(v, mem) == LoadValues(Ramp(base, 1, lanes), mem);
      forall k | 0 <= k < size ensures Values(s, mem)[k] == LoadValues(i, mem)[k] {
        assert base + (begin + k * stride) * 1 == base + begin + k * stride;
      }
    }
  }

  lemma {:induction false} PartsAppend(parts: seq<Vec>, v: Vec)
    ensures AllInRange(parts + [v]) <==> AllInRange(parts) && InRange(v)
    ensures TotalLanes(parts + [v]) == TotalLanes(parts) + Lanes(v)
  {
    if parts == [] {
      assert parts + [v] == [v] && [v][1..] == [];
    } else {
      assert (parts + [v])[1..] == parts[1..] + [v];
      PartsAppend(parts[1..], v);
    }
  }

  lemma {:induction false} ValuesAppend(parts: seq<Vec>, v: Vec, mem: Memory)
    requires AllInRange(parts) && InRange(v) && AllInRange(parts + [v])
    ensures AllValues(parts + [v], mem) == AllValues(parts, mem) + Values(v, mem)
  {
    if parts == [] {
      assert parts + [v] == [v] && [v][1..] == [];
    } else {
      assert (parts + [v])[1..] == parts[1..] + [v];
      ValuesAppend(parts[1..], v, mem);
    }
  }

  lemma {:induction false} AlignedAppend(parts: seq<Vec>, v: Vec, alignment: nat, minBytes: nat)
    ensures AllPartsAligned(parts + [v], alignment, minBytes) <==>
      AllPartsAligned(parts, alignment, minBytes) && AllAligned(v, alignment, minBytes)
  {
    if parts == [] {
      assert parts + [v] == [v] && [v][1..] == [];
    } else {
      assert (parts + [v])[1..] == parts[1..] + [v];
      AlignedAppend(parts[1..], v, alignment, minBytes);
    }
  }

  /** The parts so far have the values of the first lanes. */
  ghost predicate PartsMean(parts: seq<Vec>, base: int, lanes: nat) {
    && AllInRange(parts) && TotalLanes(parts) == lanes
    && forall mem: Memory :: AllValues(parts, mem) == LoadValues(Ramp(base, 1, lanes), mem)
  }

  lemma {:induction false} RampSplits(base: int, done: nat, lanes: nat, mem: Memory)
    ensures LoadValues(Ramp(base, 1, done), mem) + LoadValues(Ramp(base + done, 1, lanes), mem)
         == LoadValues(Ramp(base, 1, done + lanes), mem)
  {
    var x, y, all := LoadValues(Ramp(base, 1, done), mem), LoadValues(Ramp(base + done, 1, lanes), mem),
                     LoadValues(Ramp(base, 1, done + lanes), mem);
    forall k | 0 <= k < done + lanes ensures (x + y)[k] == all[k] {
      if k >= done { assert base + done + (k - done) * 1 == base + k * 1; }
    }
  }

  lemma {:induction false} NextPart(parts: seq<Vec>, v: Vec, base: int, done: nat, lanes: nat)
    requires PartsMean(parts, base, done) && Means(v, Ramp(base + done, 1, lanes))
    ensures PartsMean(parts + [v], base, done + lanes)
  {
    hide LoadValues, Values, AllValues, InRange, AllInRange, Lanes, TotalLanes;
    PartsAppend(parts, v);
    forall mem: Memory ensures AllValues(parts + [v], mem) == LoadValues(Ramp(base, 1, done + lanes), mem) {
      ValuesAppend(parts, v, mem);
      RampSplits(base, done, lanes, mem);
    }
  }

  lemma {:induction false} OnePart(v: Vec, mem: Memory)
    ensures AllInRange([v]) == InRange(v) && TotalLanes([v]) == Lanes(v)
    ensures InRange(v) ==> AllValues([v], mem) == Values(v, mem)
  {
    hide Values, InRange, Lanes;
    assert [v][1..] == [];
  }

  lemma {:induction false} ConcatMeans(parts: seq<Vec>, base: int, lanes: nat)
    requires PartsMean(parts, base, lanes) && parts != []
    ensures Means(MakeConcat(parts), Ramp(base, 1, lanes))
  {
    hide LoadValues;
    forall mem: Memory ensures InRange(MakeConcat(parts)) && Lanes(MakeConcat(parts)) == lanes
      && Values(MakeConcat(parts), mem) == LoadValues(Ramp(base, 1, lanes), mem)
    {
      assert AllValues(parts, mem) == LoadValues(Ramp(base, 1, lanes), mem);
      if |parts| == 1 {
        assert parts == [parts[0]];
        OnePart(parts[0], mem);
      }
    }
    var zero: Memory := a => 0;
    assert Values(MakeConcat(parts), zero) == LoadValues(Ramp(base, 1, lanes), zero);
  }

  lemma {:induction false} LaneMeans(load: Load)
    ensures Means(Lane(load), load.index)
  {
  }

  /** What is known of the base is right. */
  predicate Truthful(load: Load) { load.index.Ramp? && Describes(load.alignment, load.index.base) }

  class Aligner {
    const requiredAlignment: nat
    const minBytesToAlign: nat

    constructor (alignment: nat, minBytes: nat)
      requires alignment > 0
      ensures requiredAlignment == alignment && minBytesToAlign == minBytes
    {
      requiredAlignment, minBytesToAlign := alignment, minBytes;
    }

    /** The promise of the rewrite: the same values, from no more of the same buffer than the native vectors over
        the load's stretch; aligned loads when the offset is known; and loads that are left alone stay as they are. */
    ghost predicate Rewrites(v: Vec, load: Load)
      requires load.bytes > 0
    {
      && Means(v, load.index)
      && (LeftAlone(load, requiredAlignment, minBytesToAlign) ==> v == Lane(load))
      && (requiredAlignment / load.bytes > 0 ==> ReadsItsOwn(v, load, requiredAlignment / load.bytes))
      && (requiredAlignment / load.bytes > 0 && Truthful(load) && KnownOffset(load, requiredAlignment / load.bytes)
          && (LeftAlone(load, requiredAlignment, minBytesToAlign) || 1 <= load.index.stride <= 4) ==>
            AllAligned(v, requiredAlignment, minBytesToAlign))
    }

    /** The rewrite fails on the loads that leave one lane over, and only on those. */
    ghost predicate RewritesOrFails(r: Option<Vec>, load: Load)
      requires load.bytes > 0
    {
      && (r.None? <==> LeavesOneLane(load, requiredAlignment, minBytesToAlign))
      && (r.Some? ==> Rewrites(r.value, load))
    }

    /** The rewrite of the load at another index. */
    method MakeLoad(load: Load, index: Index, alignment: ModulusRemainder) returns (r: Option<Vec>)
      requires requiredAlignment > 0 && load.bytes > 0
      requires Rank(load.(index := index, alignment := alignment), requiredAlignment, minBytesToAlign)
             < Rank(load, requiredAlignment, minBytesToAlign)
      ensures RewritesOrFails(r, load.(index := index, alignment := alignment))
      decreases Rank(load, requiredAlignment, minBytesToAlign), 0
    {
      r := Visit(load.(index := index, alignment := alignment));
    }

    method Visit(load: Load) returns (r: Option<Vec>)
      requires requiredAlignment > 0 && load.bytes > 0
      ensures r.None? <==> LeavesOneLane(load, requiredAlignment, minBytesToAlign)
      ensures r.Some? ==> Rewrites(r.value, load)
      decreases Rank(load, requiredAlignment, minBytesToAlign), 2
    {
      if LeftAlone(load, requiredAlignment, minBytesToAlign) {
        LaneMeans(load);
        LaneReadsItsOwn(load);
        return Some(Lane(load));
      }
      DividesIsPositive(requiredAlignment, load.bytes);
      var native := requiredAlignment / load.bytes;
      var alignedOffset := OffsetOf(load, native);
      var isAligned := KnownOffset(load, native) && alignedOffset == 0;
      var Ramp(base, stride, lanes) := load.index;
      if stride != 1 {
        r := VisitStrided(load, native, alignedOffset);
      } else if lanes < native {
        r := VisitSmall(load, native, alignedOffset, isAligned);
      } else if lanes > native {
        r := VisitLarge(load, native);
      } else if !isAligned && alignedOffset != 0 {
        r := VisitNative(load, native, alignedOffset);
      } else {
        LaneMeans(load);
        LaneReadsItsOwn(load);
        if KnownOffset(load, native) && Truthful(load) { OffsetIsRight(load, native); }
        r := Some(Lane(load));
      }
    }

    /** A plain vector load that is to be rewritten, and its native vector. */
    predicate Rewritten(load: Load, native: nat)
      requires load.bytes > 0
    {
      requiredAlignment > 0 && !LeftAlone(load, requiredAlignment, minBytesToAlign)
      && native == requiredAlignment / load.bytes && native > 0
    }

    /** What is known of a shifted base. */
    lemma {:induction false} ShiftedLoad(load: Load, base: int, lanes: nat, native: nat, delta: int)
      requires load.bytes > 0 && Rewritten(load, native) && base == load.index.base + delta
      ensures var load' := load.(index := Ramp(base, 1, lanes), alignment := Shifted(load.alignment, delta));
        && (Truthful(load) ==> Truthful(load'))
        && KnownOffset(load', native) == KnownOffset(load, native)
        && OffsetOf(load', native) == if KnownOffset(load, native) then (OffsetOf(load, native) + delta) % native else 0
    {
      hide LeftAlone, Describes;
      PlainLoad(load, native);
      if Truthful(load) { ShiftDescribes(load.alignment, load.index.base, delta); }
      ShiftOffset(load, load.(index := Ramp(base, 1, lanes), alignment := Shifted(load.alignment, delta)), native, delta);
    }

    lemma {:induction false} LaneReadsItsOwn(load: Load)
      requires load.bytes > 0
      ensures requiredAlignment / load.bytes > 0 ==> ReadsItsOwn(Lane(load), load, requiredAlignment / load.bytes)
    {
      var native := requiredAlignment / load.bytes;
      if native > 0 && load.index.Ramp? && load.index.stride > 0 {
        assert ReadTo(load, native) >= load.index.base + load.index.lanes * load.index.stride;
      }
    }

    /** A dense load made for another, that many lanes on or back to where the offset is zero or smaller, and ends
        inside the other's stretch, keeps to it. */
    lemma {:induction false} PartReads(v: Vec, load: Load, base: int, lanes: nat, native: nat, delta: int)
      requires load.bytes > 0 && Rewritten(load, native) && base == load.index.base + delta
      requires Rewrites(v, load.(index := Ramp(base, 1, lanes), alignment := Shifted(load.alignment, delta)))
      requires load.index.Ramp? && lanes > 1 && base + lanes <= ReadTo(load, native)
      requires -(OffsetOf(load, native) as int) <= delta <= 0 || (delta >= 0 && delta % native == 0)
      ensures Within(v, load, ReadFrom(load, native), ReadTo(load, native))
    {
      hide Within, Means, AllAligned, LeftAlone, Shifted, Describes, OffsetOf, KnownOffset, ReadTo;
      var part := load.(index := Ramp(base, 1, lanes), alignment := Shifted(load.alignment, delta));
      ShiftedLoad(load, base, lanes, native, delta);
      OffsetAfter(OffsetOf(load, native), delta, native);
      UnknownIsZero(load, native);
      assert ReadFrom(part, native) - ReadFrom(load, native) == if delta <= 0 then 0 else delta;
      assert SameBuffer(part, load);
      StretchInside(v, part, load, native);
    }

    /** A short load lies in one native vector from its aligned address on, or in the two that one from its own
        address takes; a misaligned native vector lies in two. */
    lemma {:induction false} StretchOf(load: Load, native: nat)
      requires load.bytes > 0 && Rewritten(load, native) && load.index.Ramp? && load.index.stride == 1
      requires 0 < load.index.lanes <= native
      ensures ReadTo(load, native) >= load.index.base - OffsetOf(load, native) + native
      ensures OffsetOf(load, native) + load.index.lanes > native ==>
        ReadTo(load, native) >= load.index.base - OffsetOf(load, native) + 2 * native
    {
      hide OffsetOf, LeftAlone;
      WholeVectors(ReadFrom(load, native), ReadTo(load, native), native, 1);
      if OffsetOf(load, native) + load.index.lanes > native {
        WholeVectors(ReadFrom(load, native), ReadTo(load, native), native, 2);
      }
    }

    lemma {:induction false} SliceReads(v: Vec, load: Load, base: int, lanes: nat, native: nat, delta: int,
                                        begin: int, stride: int, size: nat)
      requires load.bytes > 0 && Rewritten(load, native) && base == load.index.base + delta
      requires Rewrites(v, load.(index := Ramp(base, 1, lanes), alignment := Shifted(load.alignment, delta)))
      requires load.index.Ramp? && lanes > 1 && base + lanes <= ReadTo(load, native)
      requires -(OffsetOf(load, native) as int) <= delta <= 0
      ensures ReadsItsOwn(MakeSlice(v, begin, stride, size), load, native)
    {
      hide Within, Means, AllAligned, LeftAlone, Shifted, Describes, OffsetOf, KnownOffset, ReadTo, Rewrites, Aligner.Rewritten, MakeSlice;
      PartReads(v, load, base, lanes, native, delta);
      WithinSlice(v, begin, stride, size, load, ReadFrom(load, native), ReadTo(load, native));
    }

    /** A strided load is picked out of a dense one that spans it. */
    method VisitStrided(load: Load, native: nat, alignedOffset: nat) returns (r: Option<Vec>)
      requires load.bytes > 0 && Rewritten(load, native) && load.index.stride != 1 && alignedOffset == OffsetOf(load, native)
      ensures RewritesOrFails(r, load)
      decreases Rank(load, requiredAlignment, minBytesToAlign), 1
    {
      hide LeftAlone, OffsetOf, KnownOffset, Shifted, Describes, Means, AllAligned, MakeSlice, Rank, LeavesOneLane;
      PlainLoad(load, native);
      var Ramp(base, stride, lanes) := load.index;
      var shift := if alignedOffset < stride then alignedOffset else 0;
      DenseRank(load, base - shift, lanes * stride, native, Shifted(load.alignment, -shift));
      ShiftedLoad(load, base - shift, lanes * stride, native, -shift);
      StillLeavesOne(load, native, base - shift, lanes * stride, Shifted(load.alignment, -shift));
      var denseIndex :- MakeRamp(base - shift, 1, lanes * stride);
      var dense :- MakeLoad(load, denseIndex, Shifted(load.alignment, -shift));
      LastLane(lanes, stride, shift);
      SliceMeans(dense, base - shift, lanes * stride, shift, stride, lanes);
      AlignedSlice(dense, shift, stride, lanes, requiredAlignment, minBytesToAlign);
      SliceReads(dense, load, base - shift, lanes * stride, native, -shift, shift, stride, lanes);
      r := Some(MakeSlice(dense, shift, stride, lanes));
    }

    lemma {:induction false} PlainLoad(load: Load, native: nat)
      requires load.bytes > 0 && Rewritten(load, native)
      ensures load.index.Ramp? && 1 <= load.index.stride <= 4 && load.index.lanes > 1
    {
    }

    /** A dense load is ranked below the strided one. */
    lemma {:induction false} DenseRank(load: Load, base: int, lanes: nat, native: nat, alignment: ModulusRemainder)
      requires load.bytes > 0 && Rewritten(load, native) && load.index.stride != 1
      ensures Rank(load.(index := Ramp(base, 1, lanes), alignment := alignment), requiredAlignment, minBytesToAlign)
            < Rank(load, requiredAlignment, minBytesToAlign) == 6
    {
    }

    /** The rank of a dense load that is rewritten. */
    lemma {:induction false} RankIs(load: Load, native: nat)
      requires load.bytes > 0 && Rewritten(load, native) && load.index.stride == 1
      ensures Rank(load, requiredAlignment, minBytesToAlign)
           == (if OffsetOf(load, native) != 0 then 3 else 0)
              + if load.index.lanes > native then 2 else if load.index.lanes < native then 1 else 0
    {
    }

    /** The dense load leaves a lane over exactly when the strided one does. */
    lemma {:induction false} StillLeavesOne(load: Load, native: nat, base: int, dense: nat, alignment: ModulusRemainder)
      requires load.bytes > 0 && Rewritten(load, native) && load.index.stride != 1 && dense == load.index.lanes * load.index.stride
      ensures dense > 1
      ensures LeavesOneLane(load.(index := Ramp(base, 1, dense), alignment := alignment), requiredAlignment, minBytesToAlign)
          <==> LeavesOneLane(load, requiredAlignment, minBytesToAlign)
    {
      Scale(1, load.index.stride, load.index.lanes);
      Commute(load.index.stride, load.index.lanes);
      Scale(load.index.lanes, dense, load.bytes);
      Commute(load.index.lanes, load.bytes);
      Commute(dense, load.bytes);
    }

    /** Loads of up to a native vector, and of two, leave no lane over. */
    lemma {:induction false} LeavesNone(load: Load, native: nat)
      requires load.bytes > 0 && native == requiredAlignment / load.bytes && native > 0 && load.index.Ramp? && load.index.stride == 1
      requires load.index.lanes <= native || (load.index.lanes == 2 * native && native > 1)
      ensures !LeavesOneLane(load, requiredAlignment, minBytesToAlign)
    {
      if load.index.lanes == 2 * native { Multiple(2, native); }
    }

    lemma {:induction false} LeavesOneIff(load: Load, native: nat)
      requires load.bytes > 0 && Rewritten(load, native) && load.index.stride == 1 && load.index.lanes > native
      ensures LeavesOneLane(load, requiredAlignment, minBytesToAlign) <==> native == 1 || load.index.lanes % native == 1
    {
    }

    /** A dense load's rank is at most what its offset and size say. */
    lemma {:induction false} RankAtMost(load: Load, native: nat)
      requires load.bytes > 0 && load.index.Ramp? && load.index.stride == 1 && native == requiredAlignment / load.bytes && native > 0
      ensures Rank(load, requiredAlignment, minBytesToAlign)
           <= (if OffsetOf(load, native) != 0 then 3 else 0)
              + if load.index.lanes > native then 2 else if load.index.lanes < native then 1 else 0
    {
    }

    /** A short dense load is a slice of one native vector, which starts at the aligned address before it when
        the load still ends inside. */
    method VisitSmall(load: Load, native: nat, alignedOffset: nat, isAligned: bool) returns (r: Option<Vec>)
      requires load.bytes > 0 && Rewritten(load, native) && load.index.stride == 1 && load.index.lanes < native
      requires alignedOffset == OffsetOf(load, native) && isAligned == (KnownOffset(load, native) && alignedOffset == 0)
      ensures RewritesOrFails(r, load)
      decreases Rank(load, requiredAlignment, minBytesToAlign), 1
    {
      hide LeftAlone, Shifted, Describes, Rank, OffsetOf, KnownOffset, Means, AllAligned, MakeSlice, MakeConcat, PartsMean,
           AllPartsAligned, LeavesOneLane, Within, AllWithin;
      PlainLoad(load, native);
      var Ramp(base, _, lanes) := load.index;
      var back := if !isAligned && alignedOffset != 0 && alignedOffset + lanes <= native then alignedOffset else 0;
      var rampBase, alignment := base - back, Shifted(load.alignment, -back);
      ghost var load' := load.(index := Ramp(rampBase, 1, native), alignment := alignment);
      ShiftedLoad(load, rampBase, native, native, -back);
      BackToAligned(alignedOffset, native, back);
      RankIs(load, native);
      RankAtMost(load', native);
      LeavesNone(load, native);
      LeavesNone(load', native);
      var nativeIndex :- MakeRamp(rampBase, 1, native);
      var nativeLoad :- MakeLoad(load, nativeIndex, alignment);
      SliceMeans(nativeLoad, rampBase, native, back, 1, lanes);
      AlignedSlice(nativeLoad, back, 1, lanes, requiredAlignment, minBytesToAlign);
      StretchOf(load, native);
      SliceReads(nativeLoad, load, rampBase, native, native, -back, back, 1, lanes);
      r := Some(MakeSlice(nativeLoad, back, 1, lanes));
    }

    /** A native vector at a known offset: two aligned native vectors, and a slice. */
    method VisitNative(load: Load, native: nat, alignedOffset: nat) returns (r: Option<Vec>)
      requires load.bytes > 0 && Rewritten(load, native) && load.index.stride == 1 && load.index.lanes == native
      requires alignedOffset == OffsetOf(load, native) && alignedOffset != 0
      ensures RewritesOrFails(r, load)
      decreases Rank(load, requiredAlignment, minBytesToAlign), 1
    {
      hide LeftAlone, Shifted, Describes, Rank, OffsetOf, KnownOffset, Means, AllAligned, MakeSlice, MakeConcat, PartsMean,
           AllPartsAligned, LeavesOneLane, Within, AllWithin;
      PlainLoad(load, native);
      var Ramp(base, _, lanes) := load.index;
      ghost var load' := load.(index := Ramp(base - alignedOffset, 1, lanes * 2), alignment := Shifted(load.alignment, -(alignedOffset as int)));
      ShiftedLoad(load, base - alignedOffset, lanes * 2, native, -(alignedOffset as int));
      BackToAligned(alignedOffset, native, alignedOffset);
      RankIs(load, native);
      RankAtMost(load', native);
      LeavesNone(load, native);
      LeavesNone(load', native);
      var alignedIndex :- MakeRamp(base - alignedOffset, 1, lanes * 2);
      var alignedLoad :- MakeLoad(load, alignedIndex, Shifted(load.alignment, -(alignedOffset as int)));
      SliceMeans(alignedLoad, base - alignedOffset, lanes * 2, alignedOffset, 1, lanes);
      AlignedSlice(alignedLoad, alignedOffset, 1, lanes, requiredAlignment, minBytesToAlign);
      StretchOf(load, native);
      SliceReads(alignedLoad, load, base - alignedOffset, lanes * 2, native, -(alignedOffset as int), alignedOffset, 1, lanes);
      r := Some(MakeSlice(alignedLoad, alignedOffset, 1, lanes));
    }

    /** A dense load cut into native vectors and a shorter last one. */
    method VisitLarge(load: Load, native: nat) returns (r: Option<Vec>)
      requires load.bytes > 0 && Rewritten(load, native) && load.index.stride == 1 && load.index.lanes > native
      ensures RewritesOrFails(r, load)
      decreases Rank(load, requiredAlignment, minBytesToAlign), 1
    {
      hide LeftAlone, Shifted, Describes, Rank, OffsetOf, KnownOffset, Means, AllAligned, MakeSlice, MakeConcat, PartsMean,
           AllPartsAligned, LeavesOneLane, Within, AllWithin;
      PlainLoad(load, native);
      var Ramp(base, _, lanes) := load.index;
      ghost var known := Truthful(load) && KnownOffset(load, native);
      var slices: seq<Vec>, i := [], 0;
      NothingYet(load, base, native, requiredAlignment, minBytesToAlign);
      while i < lanes
        invariant i <= lanes && PartsMean(slices, base, i) && (slices == [] <==> i == 0)
        invariant known ==> i % native == 0 || i == lanes
        invariant i < lanes ==> i % native == 0
        invariant known ==> AllPartsAligned(slices, requiredAlignment, minBytesToAlign)
        invariant AllWithin(slices, load, ReadFrom(load, native), ReadTo(load, native))
        invariant (i > 0 ==> native > 1) && (i == lanes ==> lanes % native != 1)
      {
        var sliceLanes := if native < lanes - i then native else lanes - i;
        if lanes - i <= native { LastSlice(lanes, i, native); }
        LeavesOneIff(load, native);
        var index :- MakeRamp(base + i, 1, sliceLanes);
        ghost var load' := load.(index := Ramp(base + i, 1, sliceLanes), alignment := Shifted(load.alignment, i));
        ShiftedLoad(load, base + i, sliceLanes, native, i);
        SameOffset(OffsetOf(load, native), i, native);
        RankIs(load, native);
        RankAtMost(load', native);
        LeavesNone(load', native);
        var slice :- MakeLoad(load, index, Shifted(load.alignment, i));
        NextPart(slices, slice, base, i, sliceLanes);
        AlignedAppend(slices, slice, requiredAlignment, minBytesToAlign);
        PartReads(slice, load, base + i, sliceLanes, native, i);
        WithinAppend(slices, slice, load, ReadFrom(load, native), ReadTo(load, native));
        NextStart(i, native);
        slices := slices + [slice];
        i := i + sliceLanes;
      }
      ConcatMeans(slices, base, lanes);
      AlignedConcat(slices, requiredAlignment, minBytesToAlign);
      WithinConcat(slices, load, ReadFrom(load, native), ReadTo(load, native));
      LeavesOneIff(load, native);
      r := Some(MakeConcat(slices));
    }
  }

  lemma {:induction false} NothingYet(load: Load, base: int, native: nat, alignment: nat, minBytes: nat)
    requires native > 0 && load.index.Ramp?
    ensures PartsMean([], base, 0) && AllPartsAligned([], alignment, minBytes)
    ensures AllWithin([], load, ReadFrom(load, native), ReadTo(load, native))
  {
  }

  lemma {:induction false} AlignedSlice(v: Vec, begin: int, stride: int, size: nat, alignment: nat, minBytes: nat)
    ensures AllAligned(MakeSlice(v, begin, stride, size), alignment, minBytes) == AllAligned(v, alignment, minBytes)
  {
  }

  lemma {:induction false} AlignedConcat(parts: seq<Vec>, alignment: nat, minBytes: nat)
    requires parts != []
    ensures AllAligned(MakeConcat(parts), alignment, minBytes) == AllPartsAligned(parts, alignment, minBytes)
  {
    if |parts| == 1 { assert parts[1..] == []; }
  }

  /** Stepping by whole native vectors keeps the offset. */
  lemma {:induction false} SameOffset(offset: nat, i: nat, native: nat)
    requires native > 0 && offset < native && i % native == 0
    ensures (offset + i) % native == offset
  {
    Commute(native, i / native);
    Remainder(offset + i, i / native, offset, native);
  }

  /** The lanes of the last native vector. */
  lemma {:induction false} LastSlice(lanes: nat, i: nat, native: nat)
    requires native > 0 && i % native == 0 && i < lanes <= i + native
    ensures lanes % native == if lanes == i + native then 0 else lanes - i
  {
    Commute(native, i / native);
    if lanes == i + native {
      Distribute(i / native, 1, native);
      Remainder(lanes, i / native + 1, 0, native);
    } else {
      Remainder(lanes, i / native, lanes - i, native);
    }
  }

  lemma {:induction false} NextStart(i: nat, native: nat)
    requires native > 0 && i % native == 0
    ensures (i + native) % native == 0
  {
    Commute(native, i / native);
    Distribute(i / native, 1, native);
    Multiple(i / native + 1, native);
  }

  lemma {:induction false} OffsetAfter(offset: nat, delta: int, native: nat)
    requires offset < native && (-(offset as int) <= delta <= 0 || (delta >= 0 && delta % native == 0))
    ensures (offset + delta) % native == if delta <= 0 then offset + delta else offset
  {
    if delta <= 0 { Remainder(offset + delta, 0, offset + delta, native); } else { SameOffset(offset, delta, native); }
  }

  lemma {:induction false} BackToAligned(offset: nat, native: nat, back: nat)
    requires offset < native && (back == offset || back == 0)
    ensures (offset - back) % native == offset - back
  {
    Remainder(offset - back, 0, offset - back, native);
  }

  /** The last lane of a strided load lies within the dense one. */
  lemma {:induction false} LastLane(lanes: nat, stride: nat, shift: nat)
    requires lanes > 0 && shift < stride
    ensures shift + (lanes - 1) * stride < lanes * stride
  {
    Distribute(lanes, 1, stride);
  }

  lemma {:induction false} DividesIsPositive(a: nat, b: nat)
    requires a > 0 && b > 0 && a % b == 0
    ensures a / b > 0
  {
    assert a == b * (a / b);
  }
}
