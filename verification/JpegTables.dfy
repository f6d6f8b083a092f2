/** The baseline JPEG decoder's Huffman tables. */
module JpegTables {
  import opened Arithmetic
  import opened Bits
  import opened Canonical

  const FAST_BITS: nat := FAST
  const FAST_SIZE: nat := 512
  /** Marks a fast entry without a short code. */
  const NOT_FAST: nat := 255

  /** The code lengths in order, from how many codes there are of each length. */
  function SizeList(count: seq<nat>): (r: seq<nat>)
    ensures forall k :: 0 <= k < |r| ==> 1 <= r[k] <= |count|
  {
    if count == [] then []
    else SizeList(count[..|count| - 1]) + seq(count[|count| - 1], _ => |count|)
  }

  predicate Sorted(lens: seq<nat>) {
    (forall k :: 0 <= k < |lens| ==> lens[k] >= 1) && forall j, k :: 0 <= j <= k < |lens| ==> lens[j] <= lens[k]
  }

  lemma {:induction false} SizeListSorted(count: seq<nat>)
    ensures Sorted(SizeList(count))
  {
    if count != [] { SizeListSorted(count[..|count| - 1]); }
  }

  /** How many codes are shorter than `s` bits. */
  function Shorter(lens: seq<nat>, s: nat): (r: nat)
    ensures r <= |lens|
  {
    if lens == [] then 0 else Shorter(lens[..|lens| - 1], s) + (if lens[|lens| - 1] < s then 1 else 0)
  }

  lemma {:induction false} ShorterStep(lens: seq<nat>, s: nat)
    ensures Shorter(lens, s + 1) == Shorter(lens, s) + Count(lens, s)
  {
    if lens != [] { ShorterStep(lens[..|lens| - 1], s); }
  }

  /** In a sorted list the shorter codes come first. */
  lemma {:induction false} ShorterComeFirst(lens: seq<nat>, s: nat, k: nat)
    requires Sorted(lens) && k < |lens|
    ensures lens[k] < s <==> k < Shorter(lens, s)
  {
    var n := |lens| - 1;
    if lens[n] < s {
      AllShorter(lens, s);
    } else if k < n {
      ShorterComeFirst(lens[..n], s, k);
    }
  }

  lemma {:induction false} AllShorter(lens: seq<nat>, s: nat)
    requires forall k :: 0 <= k < |lens| ==> lens[k] < s
    ensures Shorter(lens, s) == |lens|
  {
    if lens != [] { AllShorter(lens[..|lens| - 1], s); }
  }

  /** In a sorted list codes of one length are consecutive. */
  lemma {:induction false} CodeInOrder(lens: seq<nat>, i: nat)
    requires Sorted(lens) && i < |lens|
    ensures Code(lens, i) == First(lens, lens[i]) + i - Shorter(lens, lens[i])
  {
    ShorterComeFirst(lens, lens[i], i);
    CountBefore(lens, i, i);
  }

  lemma {:induction false} CountBefore(lens: seq<nat>, i: nat, j: nat)
    requires Sorted(lens) && j <= i < |lens|
    ensures Count(lens[..j], lens[i]) == if j <= Shorter(lens, lens[i]) then 0 else j - Shorter(lens, lens[i])
  {
    if j > 0 {
      assert lens[..j][..j - 1] == lens[..j - 1];
      CountBefore(lens, i, j - 1);
      ShorterComeFirst(lens, lens[i], j - 1);
    }
  }

  /** Symbol i's code comes first in the nine bits `c`. */
  predicate FitsFast(lens: seq<nat>, i: nat, c: nat) {
    i < |lens| && 0 < lens[i] <= FAST_BITS && c / Pow2(FAST_BITS - lens[i]) == Code(lens, i)
  }

  predicate FastEntry(lens: seq<nat>, upTo: nat, entry: nat, c: nat) {
    && (entry != NOT_FAST ==> entry < upTo && FitsFast(lens, entry, c))
    && (entry == NOT_FAST ==> forall i :: 0 <= i < upTo ==> !FitsFast(lens, i, c))
  }

  /** No symbol with a short code has the number that marks an entry as not fast. */
  predicate Tabled(lens: seq<nat>) { |lens| <= 255 || (|lens| == 256 && lens[255] > FAST_BITS) }

  /** A fast table can only be right when no short code is taken for the mark. */
  lemma {:induction false} RightIsTabled(lens: seq<nat>, fast: seq<nat>)
    requires Sorted(lens) && Accepted(lens) && |lens| <= 256 && |fast| == FAST_SIZE
    requires forall c :: 0 <= c < FAST_SIZE ==> FastEntry(lens, |lens|, fast[c], c)
    ensures Tabled(lens)
  {
    hide FitsFast, Accepted, Sorted, Code, Matches;
    if !Tabled(lens) {
      AtLeastOne(lens, 255);
      var x := FastWindow(lens, 255);
      assert FastEntry(lens, 256, fast[x], x);
      OneFits(lens, fast[x], 255, x);
    }
  }

  lemma {:induction false} AtLeastOne(lens: seq<nat>, i: nat)
    requires Sorted(lens) && i < |lens|
    ensures lens[i] > 0
  {
  }

  /** Nine bits that start with symbol i's short code. */
  lemma {:induction false} FastWindow(lens: seq<nat>, i: nat) returns (x: nat)
    requires Sorted(lens) && Accepted(lens) && i < |lens| && lens[i] <= FAST_BITS
    ensures x < FAST_SIZE && FitsFast(lens, i, x)
  {
    hide FitsFast, Accepted, Sorted, Code;
    FastRange(lens, i);
    x := Pow2(FAST_BITS - lens[i]) * Code(lens, i);
  }

  /** No two short codes come first in the same nine bits. */
  lemma {:induction false} OneFits(lens: seq<nat>, i: nat, j: nat, x: nat)
    requires Accepted(lens) && i < |lens| && j < |lens| && i != j && FitsFast(lens, i, x)
    ensures !FitsFast(lens, j, x)
  {
    hide Accepted, Code, Matches;
    if FitsFast(lens, j, x) {
      assert (x * 128) / 128 == x;
      FitsIffMatches(lens, i, x * 128);
      FitsIffMatches(lens, j, x * 128);
      MatchIsUnique(lens, i, j, x * 128);
    }
  }

  class Huffman {
    const fast: array<nat>
    const code: array<nat>
    const values: array<byte>
    const size: array<nat>
    const maxcode: array<nat>
    const delta: array<int>

    constructor ()
      ensures Shape() && fresh(fast) && fresh(code) && fresh(values) && fresh(size) && fresh(maxcode) && fresh(delta)
    {
      fast := new nat[FAST_SIZE];
      code := new nat[256];
      values := new byte[256];
      size := new nat[257];
      maxcode := new nat[18];
      delta := new int[17];
    }

    ghost predicate Shape() {
      && fast.Length == FAST_SIZE && code.Length == 256 && values.Length == 256 && size.Length == 257
      && maxcode.Length == 18 && delta.Length == 17
      && fast != code && fast != size && fast != maxcode && code != size && code != maxcode && size != maxcode
    }

    ghost predicate SizesFor(lens: seq<nat>)
      requires Shape()
      reads size
    {
      |lens| <= 256 && (forall i :: 0 <= i < |lens| ==> size[i] == lens[i]) && size[|lens|] == 0
    }

    ghost predicate CodesFor(lens: seq<nat>, j: nat)
      requires Shape() && j <= 17 && |lens| <= 256
      reads maxcode, delta
    {
      forall s :: 1 <= s < j ==> maxcode[s] == MaxCode(lens, s) && delta[s] == Shorter(lens, s) - First(lens, s)
    }

    ghost predicate FastFor(lens: seq<nat>, upTo: nat)
      requires Shape()
      reads fast
    {
      forall c :: 0 <= c < FAST_SIZE ==> FastEntry(lens, upTo, fast[c], c)
    }

    /** The tables decode the canonical code with these lengths. */
    ghost predicate TablesFor(lens: seq<nat>)
      reads fast, size, maxcode, delta
    {
      && Shape() && Sorted(lens) && Accepted(lens) && |lens| <= 256
      && SizesFor(lens) && CodesFor(lens, 17) && maxcode[17] == 0xffff_ffff && FastFor(lens, |lens|)
    }

    method SetValues(v: seq<byte>)
      requires values.Length == |v|
      modifies values
      ensures values[..] == v
    {
      for i := 0 to |v|
        invariant forall k :: 0 <= k < i ==> values[k] == v[k]
      {
        values[i] := v[i];
      }
    }

    method FastSymbol(c: nat, ghost lens: seq<nat>) returns (k: nat, s: nat)
      requires TablesFor(lens) && c < FAST_SIZE
      ensures FastEntry(lens, |lens|, k, c) && (k < |lens| ==> s == lens[k])
    {
      k := fast[c];
      s := if k < 257 then size[k] else 0;
    }

    method DeltaOf(s: nat, ghost lens: seq<nat>) returns (d: int)
      requires TablesFor(lens) && 1 <= s <= 16
      ensures d == Shorter(lens, s) - First(lens, s)
    {
      d := delta[s];
    }

    /** Builds the tables from the number of codes of each length.  They are right exactly when the last of
        256 symbols, whose number marks an entry as not fast, has no short code. */
    method Build(count: seq<nat>) returns (ok: bool)
      requires Shape() && |count| == 16
      modifies fast, code, size, maxcode, delta
      ensures ok <==> |SizeList(count)| <= 256 && Accepted(SizeList(count))
      ensures ok ==> (TablesFor(SizeList(count)) <==> Tabled(SizeList(count)))
    {
      ghost var lens := SizeList(count);
      SizeListSorted(count);
      ok := BuildSizes(count);
      if !ok { return; }
      ok := BuildCodes(lens);
      if !ok { return; }
      BuildFast(lens);
    }

    /** Lists each symbol's code length. */
    method BuildSizes(count: seq<nat>) returns (ok: bool)
      requires Shape() && |count| == 16
      modifies size
      ensures ok <==> |SizeList(count)| <= 256
      ensures ok ==> SizesFor(SizeList(count))
    {
      var k := 0;
      for i := 0 to 16
        invariant k == |SizeList(count[..i])| <= 256
        invariant forall m :: 0 <= m < k ==> size[m] == SizeList(count[..i])[m]
      {
        assert count[..i + 1][..i] == count[..i];
        ghost var before := SizeList(count[..i]);
        SizeListGrows(count, i + 1);
        for j := 0 to count[i]
          invariant k == |before| + j <= 256
          invariant forall m :: 0 <= m < k ==> size[m] == if m < |before| then before[m] else i + 1
        {
          size[k] := i + 1;
          k := k + 1;
          if k >= 257 { return false; }
        }
      }
      assert count[..16] == count;
      size[k] := 0;
      ok := true;
    }

    /** Numbers the codes, length by length. */
    method BuildCodes(ghost lens: seq<nat>) returns (ok: bool)
      requires Shape() && SizesFor(lens) && Sorted(lens) && Bounded(lens)
      modifies code, maxcode, delta
      ensures ok <==> Accepted(lens)
      ensures ok ==> CodesFor(lens, 17) && maxcode[17] == 0xffff_ffff && forall i :: 0 <= i < |lens| ==> code[i] == Code(lens, i)
    {
      hide Code, Shorter, MaxCode, Sorted, End, Count, Pow2;
      var next, k := 0, 0;
      ShorterThanOne(lens);
      for j := 1 to 17
        invariant next == First(lens, j) && k == Shorter(lens, j)
        invariant CodesFor(lens, j) && forall i :: 0 <= i < k ==> code[i] == Code(lens, i)
        invariant forall s :: 1 <= s < j && Count(lens, s) > 0 ==> End(lens, s) <= Pow2(s)
      {
        var before := k - next;
        var any;
        next, k, any := NumberCodes(lens, j, next, k);
        if any && next - 1 >= Pow2(j) {
          assert End(lens, j) > Pow2(j);
          return false;
        }
        RecordLength(lens, j, before, next);
        next := 2 * next;
      }
      AllShorter(lens, 17);
      maxcode[17] := 0xffff_ffff;
      ok := true;
    }

    /** What to add to a code of `j` bits to get its symbol, and the bound its windows end at. */
    method RecordLength(ghost lens: seq<nat>, j: nat, before: int, next: nat)
      requires Shape() && |lens| <= 256 && 1 <= j <= 16 && CodesFor(lens, j)
      requires before == Shorter(lens, j) - First(lens, j) && next == End(lens, j)
      modifies maxcode, delta
      ensures CodesFor(lens, j + 1)
    {
      Preshift(lens, j);
      delta[j] := before;
      maxcode[j] := ShiftLeft(next, 16 - j);
    }

    /** Gives the symbols with codes of `j` bits consecutive codes. */
    method NumberCodes(ghost lens: seq<nat>, j: nat, first: nat, k0: nat) returns (next: nat, k: nat, any: bool)
      requires Shape() && SizesFor(lens) && Sorted(lens) && 1 <= j <= 16
      requires first == First(lens, j) && k0 == Shorter(lens, j)
      requires forall i :: 0 <= i < k0 ==> code[i] == Code(lens, i)
      modifies code
      ensures next == End(lens, j) && k == Shorter(lens, j + 1) && (any <==> Count(lens, j) > 0)
      ensures forall i :: 0 <= i < k ==> code[i] == Code(lens, i)
    {
      ShorterStep(lens, j);
      next, k, any := first, k0, false;
      while size[k] == j
        invariant k0 <= k <= Shorter(lens, j + 1) && next == first + (k - k0) && (any <==> k > k0)
        invariant forall i :: 0 <= i < k ==> code[i] == Code(lens, i)
        decreases |lens| - k
      {
        ShorterComeFirst(lens, j, k);
        ShorterComeFirst(lens, j + 1, k);
        CodeInOrder(lens, k);
        code[k] := next;
        next := next + 1;
        k := k + 1;
        any := true;
      }
      if k < |lens| {
        ShorterComeFirst(lens, j, k);
        ShorterComeFirst(lens, j + 1, k);
      }
    }

    /** Fills in the symbols whose codes the nine bits decide. */
    method BuildFast(ghost lens: seq<nat>)
      requires Shape() && SizesFor(lens) && Sorted(lens) && Accepted(lens)
      requires forall i :: 0 <= i < |lens| ==> code[i] == Code(lens, i)
      modifies fast
      ensures FastFor(lens, |lens|) <==> Tabled(lens)
    {
      for c := 0 to FAST_SIZE
        invariant forall m :: 0 <= m < c ==> fast[m] == NOT_FAST
      {
        fast[c] := NOT_FAST;
      }
      var i := 0;
      while size[i] != 0
        invariant i <= |lens| && (Tabled(lens) ==> FastFor(lens, i))
        decreases |lens| - i
      {
        FillFast(lens, i);
        i := i + 1;
      }
      if FastFor(lens, |lens|) { RightIsTabled(lens, fast[..]); }
    }

    method FillFast(ghost lens: seq<nat>, i: nat)
      requires Shape() && SizesFor(lens) && Sorted(lens) && Accepted(lens) && i < |lens| && code[i] == Code(lens, i)
      requires Tabled(lens) ==> FastFor(lens, i)
      modifies fast
      ensures Tabled(lens) ==> FastFor(lens, i + 1)
    {
      var s := size[i];
      if s <= FAST_BITS {
        FastRange(lens, i);
        ShiftLeftValue(code[i], FAST_BITS - s);
        ShiftLeftValue(1, FAST_BITS - s);
        var c, m := ShiftLeft(code[i], FAST_BITS - s), ShiftLeft(1, FAST_BITS - s);
        for j := 0 to m
          invariant forall x :: 0 <= x < FAST_SIZE ==> fast[x] == if c <= x < c + j then i else old(fast[x])
        {
          fast[c + j] := i;
        }
      }
      forall x | 0 <= x < FAST_SIZE && Tabled(lens) ensures FastEntry(lens, i + 1, fast[x], x) {
        FastExtends(lens, i, old(fast[x]), x);
      }
    }
  }

  lemma {:induction false} FastRange(lens: seq<nat>, i: nat)
    requires Sorted(lens) && Accepted(lens) && i < |lens| && lens[i] <= FAST_BITS
    ensures var p, c := Pow2(FAST_BITS - lens[i]), Code(lens, i);
      p * c + p <= FAST_SIZE && p * 1 == p
      && forall x :: 0 <= x < FAST_SIZE ==> (FitsFast(lens, i, x) <==> p * c <= x < p * c + p)
  {
    var s := lens[i];
    var p, c := Pow2(FAST_BITS - s), Code(lens, i);
    CodeFits(lens, i);
    Pow2Add(s, FAST_BITS - s);
    Pow2Values();
    Scale(c + 1, Pow2(s), p);
    Distribute(c, 1, p);
    Commute(p, c);
    forall x | 0 <= x < FAST_SIZE ensures FitsFast(lens, i, x) <==> p * c <= x < p * c + p { Quotient(x, c, p); }
  }

  /** The nine bits of a window. */
  lemma {:induction false} FitsIffMatches(lens: seq<nat>, i: nat, k: nat)
    requires i < |lens| && 0 < lens[i] <= FAST_BITS
    ensures FitsFast(lens, i, k / 128) <==> Matches(lens, i, k)
  {
    var s := lens[i];
    Pow2Values();
    Pow2Add(7, FAST_BITS - s);
    DivideTwice(k, 128, Pow2(FAST_BITS - s));
  }

  lemma {:induction false} DivideTwice(k: nat, a: nat, b: nat)
    requires a > 0 && b > 0
    ensures a * b > 0 && (k / a) / b == k / (a * b)
  {
    var q := (k / a) / b;
    Divide(k, a);
    Divide(k / a, b);
    AtLeast(a, b);
    var r := k % a + a * ((k / a) % b);
    assert a * (k / a) == a * (b * q) + a * ((k / a) % b) by { Spread(a, (k / a) % b, b * q); }
    assert a * (b * q) == q * (a * b) by { Rotate(a, b, q); }
    assert r < a * b by { Scale((k / a) % b + 1, b, a); Spread(a, (k / a) % b, 1); Commute(a, b); Commute(a, (k / a) % b + 1); }
    Remainder(k, q, r, a * b);
  }

  lemma {:induction false} Spread(a: int, x: int, y: int)
    ensures a * (x + y) == a * x + a * y
  {
  }

  lemma {:induction false} Rotate(a: int, b: int, q: int)
    ensures a * (b * q) == q * (a * b)
  {
  }

  lemma {:induction false} FastExtends(lens: seq<nat>, i: nat, entry: nat, c: nat)
    requires i < |lens| && Tabled(lens) && Accepted(lens) && FastEntry(lens, i, entry, c) && c < FAST_SIZE
    ensures FastEntry(lens, i + 1, if FitsFast(lens, i, c) then i else entry, c)
  {
    if entry != NOT_FAST { OneFits(lens, entry, i, c); }
  }

  lemma {:induction false} ShorterThanOne(lens: seq<nat>)
    requires Sorted(lens)
    ensures Shorter(lens, 1) == 0
  {
    if lens != [] { ShorterThanOne(lens[..|lens| - 1]); }
  }

  lemma {:induction false} Preshift(lens: seq<nat>, s: nat)
    requires 1 <= s <= 16
    ensures ShiftLeft(End(lens, s), 16 - s) == MaxCode(lens, s)
  {
    ShiftLeftValue(End(lens, s), 16 - s);
    Commute(Pow2(16 - s), End(lens, s));
  }

  lemma {:induction false} SizeListGrows(count: seq<nat>, i: nat)
    requires i <= |count|
    ensures |SizeList(count[..i])| <= |SizeList(count)|
    decreases |count| - i
  {
    if i < |count| {
      assert count[..i + 1][..i] == count[..i];
      SizeListGrows(count, i + 1);
    } else {
      assert count[..i] == count;
    }
  }

  // ---- A table with 256 short codes ----

  lemma {:induction false} CountSame(n: nat, v: nat, s: nat)
    ensures Count(seq(n, _ => v), s) == if s == v then n else 0
  {
    if n > 0 {
      assert seq(n, _ => v)[..n - 1] == seq(n - 1, _ => v);
      CountSame(n - 1, v, s);
    }
  }

  /** All 256 symbols in eight bits: the list is accepted, but the bound for ten bits takes every window that
      the fast table leaves, and ten bits less 768 are taken for the symbol. */
  lemma {:induction false} EightBitsMisread()
    ensures var lens := seq(256, _ => 8);
      && Sorted(lens) && Accepted(lens) && !Tabled(lens)
      && MaxCode(lens, 10) == 0x10000 && Shorter(lens, 10) as int - First(lens, 10) == -768
  {
    var lens := seq(256, _ => 8);
    forall s: nat ensures Count(lens, s) == if s == 8 then 256 else 0 { CountSame(256, 8, s); }
    Pow2Values();
    assert First(lens, 4) == 0;
    assert First(lens, 8) == 0 && End(lens, 8) == 256;
    assert First(lens, 9) == 512 && End(lens, 9) == 512;
    assert First(lens, 10) == 1024 && End(lens, 10) == 1024;
    AllShorter(lens, 10);
  }
}
