/** The inflate decoder's Huffman tables: a fast table for short codes and the canonical bounds. */
module ZTables {
  import opened Arithmetic
  import opened Bits
  import opened BitReversal
  import opened Canonical

  const ZFAST_BITS: nat := 9
  const ZFAST_SIZE: nat := 512
  const ZNSYMS: nat := 288

  /** The number of symbols with codes shorter than `s` bits: the index of the first s-bit symbol. */
  function Sym(lens: seq<nat>, s: nat): nat {
    if s <= 1 then 0 else Sym(lens, s - 1) + Count(lens, s - 1)
  }

  /** Where symbol i stands when symbols are listed by code. */
  function Index(lens: seq<nat>, i: nat): nat
    requires i < |lens|
  {
    Sym(lens, lens[i]) + Count(lens[..i], lens[i])
  }

  /** How many symbols have a code shorter than `s` bits. */
  function Shorter(lens: seq<nat>, s: nat): (r: nat)
    ensures r <= |lens|
  {
    if lens == [] then 0 else Shorter(lens[..|lens| - 1], s) + (if 0 < lens[|lens| - 1] < s then 1 else 0)
  }

  lemma {:induction false} ShorterStep(lens: seq<nat>, s: nat)
    requires s > 0
    ensures Shorter(lens, s + 1) == Shorter(lens, s) + Count(lens, s)
  {
    if lens != [] { ShorterStep(lens[..|lens| - 1], s); }
  }

  lemma {:induction false} NoneShorter(lens: seq<nat>)
    ensures Shorter(lens, 1) == 0
  {
    if lens != [] { NoneShorter(lens[..|lens| - 1]); }
  }

  lemma {:induction false} SymIsShorter(lens: seq<nat>, s: nat)
    requires s > 0
    ensures Sym(lens, s) == Shorter(lens, s)
  {
    if s == 1 {
      NoneShorter(lens);
    } else {
      SymIsShorter(lens, s - 1);
      ShorterStep(lens, s - 1);
    }
  }

  lemma {:induction false} IndexBound(lens: seq<nat>, i: nat)
    requires i < |lens| && lens[i] > 0
    ensures Index(lens, i) < Sym(lens, lens[i]) + Count(lens, lens[i]) <= |lens|
  {
    CountPrefix(lens, i, |lens|, lens[i]);
    assert lens[..|lens|] == lens;
    SymIsShorter(lens, lens[i] + 1);
  }

  lemma {:induction false} SymMonotone(lens: seq<nat>, s: nat, t: nat)
    requires 1 <= s < t
    ensures Sym(lens, s) + Count(lens, s) <= Sym(lens, t)
  {
    if s + 1 < t { SymMonotone(lens, s, t - 1); }
  }

  /** Different symbols stand at different places. */
  lemma {:induction false} IndexInjective(lens: seq<nat>, i: nat, j: nat)
    requires i < j < |lens| && lens[i] > 0 && lens[j] > 0
    ensures Index(lens, i) != Index(lens, j)
  {
    if lens[i] == lens[j] {
      CountPrefix(lens, i, j, lens[i]);
    } else {
      IndexBound(lens, i);
      IndexBound(lens, j);
      SymMonotone(lens, if lens[i] < lens[j] then lens[i] else lens[j], if lens[i] < lens[j] then lens[j] else lens[i]);
    }
  }

  /** The low nine bits `j` start with the short code of symbol i. */
  predicate Fits(lens: seq<nat>, i: nat, j: nat) {
    i < |lens| && 0 < lens[i] <= ZFAST_BITS && CodeBits(lens, i) <= BitsOf(j, ZFAST_BITS)
  }

  lemma {:induction false} FitsIff(lens: seq<nat>, i: nat, j: nat)
    requires i < |lens| && 0 < lens[i] <= ZFAST_BITS
    ensures Fits(lens, i, j) <==> j % Pow2(lens[i]) == Value(CodeBits(lens, i))
  {
    var s, c := lens[i], CodeBits(lens, i);
    Divide(j, Pow2(s));
    BitsOfPrefix(j, s, ZFAST_BITS - s);
    BitsOfLow(j % Pow2(s), j / Pow2(s), s);
    ValueOfBits(j % Pow2(s), s);
    BitsOfValue(c);
    assert BitsOf(j, ZFAST_BITS)[..s] == BitsOf(j % Pow2(s), s);
    assert c <= BitsOf(j, ZFAST_BITS) <==> c == BitsOf(j, ZFAST_BITS)[..s];
  }

  /** A fast entry names the symbol whose code fits, with its length; zero means no short code fits. */
  ghost predicate FastEntry(lens: seq<nat>, upTo: nat, entry: nat, j: nat) {
    && (forall i: nat :: i < upTo && Fits(lens, i, j) ==> entry == lens[i] * 512 + i)
    && (entry != 0 ==> exists i: nat :: i < upTo && Fits(lens, i, j))
  }

  lemma {:induction false} SameResidue(a: int, b: int, n: int)
    requires n > 0 && a <= b < a + n && a % n == b % n
    ensures a == b
  {
    var qa, qb := a / n, b / n;
    assert a == qa * n + a % n && b == qb * n + b % n;
    Distribute(qb, qa, n);
    if qb > qa { AtLeast(qb - qa, n); }
    if qb < qa { AtLeast(qa - qb, n); Distribute(qa, qb, n); }
  }

  lemma {:induction false} EntrySkips(lens: seq<nat>, i: nat, entry: nat, j: nat)
    requires i < |lens| && !(0 < lens[i] <= ZFAST_BITS) && FastEntry(lens, i, entry, j)
    ensures FastEntry(lens, i + 1, entry, j)
  {
    hide Index, First, Code;
    assert !Fits(lens, i, j);
  }

  class ZHuffman {
    const fast: array<nat>
    const firstcode: array<nat>
    const maxcode: array<nat>
    const firstsymbol: array<nat>
    const size: array<nat>
    const value: array<nat>

    constructor ()
      ensures Shape() && fresh(Repr())
    {
      fast := new nat[ZFAST_SIZE];
      firstcode := new nat[16];
      maxcode := new nat[17];
      firstsymbol := new nat[16];
      size := new nat[ZNSYMS];
      value := new nat[ZNSYMS];
    }

    ghost function Repr(): set<object> { {fast, firstcode, maxcode, firstsymbol, size, value} }

    ghost predicate Shape() {
      && fast.Length == ZFAST_SIZE && firstcode.Length == 16 && maxcode.Length == 17
      && firstsymbol.Length == 16 && size.Length == ZNSYMS && value.Length == ZNSYMS
      && fast != firstcode && fast != maxcode && fast != firstsymbol && fast != size && fast != value
      && firstcode != maxcode && firstcode != firstsymbol && firstcode != size && firstcode != value
      && maxcode != firstsymbol && maxcode != size && maxcode != value
      && firstsymbol != size && firstsymbol != value && size != value
    }

    ghost predicate CodesFor(lens: seq<nat>, upTo: nat)
      requires Shape() && upTo <= 16
      reads firstcode, firstsymbol, maxcode
    {
      forall s :: 1 <= s < upTo ==>
        firstcode[s] == First(lens, s) && firstsymbol[s] == Sym(lens, s) && maxcode[s] == MaxCode(lens, s)
    }

    ghost predicate SymbolsFor(lens: seq<nat>, upTo: nat)
      requires Shape() && upTo <= |lens| <= ZNSYMS
      reads size, value
    {
      forall i: nat :: i < upTo && lens[i] > 0 ==>
        Index(lens, i) < ZNSYMS && size[Index(lens, i)] == lens[i] && value[Index(lens, i)] == i
    }

    ghost predicate FastFor(lens: seq<nat>, upTo: nat)
      requires Shape()
      reads fast
    {
      forall j: nat :: j < ZFAST_SIZE ==> FastEntry(lens, upTo, fast[j], j)
    }

    /** The tables decode the canonical code with these lengths. */
    ghost predicate TablesFor(lens: seq<nat>)
      reads fast, firstcode, maxcode, firstsymbol, size, value
    {
      && Shape() && |lens| <= ZNSYMS && Accepted(lens) && (forall i :: 0 <= i < |lens| ==> lens[i] < 16)
      && CodesFor(lens, 16) && maxcode[16] == 0x10000
      && SymbolsFor(lens, |lens|) && FastFor(lens, |lens|)
    }

    /** Builds the tables, unless more codes of some length are asked for than there are. */
    method Build(sizelist: seq<nat>) returns (ok: bool)
      requires Shape() && |sizelist| <= ZNSYMS && forall i :: 0 <= i < |sizelist| ==> sizelist[i] < 16
      modifies Repr()
      ensures ok <==> Accepted(sizelist)
      ensures ok ==> TablesFor(sizelist)
    {
      for j := 0 to ZFAST_SIZE
        invariant forall k :: 0 <= k < j ==> fast[k] == 0
      {
        fast[j] := 0;
      }
      var sizes := CountSizes(sizelist);
      var nextCode := new nat[16];
      var fits := CheckSizes(sizelist, sizes);
      if !fits {
        return false;
      }
      ok := AssignCodes(sizelist, sizes, nextCode);
      if ok {
        maxcode[16] := 0x10000;
        NothingLonger(sizelist);
        FillSymbols(sizelist, nextCode);
      }
    }

    method CountSizes(sizelist: seq<nat>) returns (sizes: array<nat>)
      requires forall i :: 0 <= i < |sizelist| ==> sizelist[i] < 16
      ensures fresh(sizes) && sizes.Length == 17
      ensures forall s :: 1 <= s < 17 ==> sizes[s] == Count(sizelist, s)
      ensures sizes[0] == 0
    {
      sizes := new nat[17](_ => 0);
      for i := 0 to |sizelist|
        invariant fresh(sizes)
        invariant forall s :: 0 <= s < 17 ==> sizes[s] == Count(sizelist[..i], s)
      {
        assert sizelist[..i + 1][..i] == sizelist[..i];
        sizes[sizelist[i]] := sizes[sizelist[i]] + 1;
      }
      assert sizelist[..|sizelist|] == sizelist;
      sizes[0] := 0;
    }

    static method CheckSizes(ghost lens: seq<nat>, sizes: array<nat>) returns (ok: bool)
      requires sizes.Length == 17 && forall s :: 1 <= s < 17 ==> sizes[s] == Count(lens, s)
      ensures !ok ==> !Accepted(lens)
    {
      for i := 1 to 16 {
        if sizes[i] > Pow2(i) {
          return false;
        }
      }
      ok := true;
    }

    method AssignCodes(ghost lens: seq<nat>, sizes: array<nat>, nextCode: array<nat>) returns (ok: bool)
      requires Shape() && sizes.Length == 17 && nextCode.Length == 16 && {sizes, nextCode} !! Repr()
      requires sizes != nextCode
      requires forall i :: 0 <= i < |lens| ==> lens[i] < 16
      requires forall s :: 1 <= s < 17 ==> sizes[s] == Count(lens, s)
      modifies nextCode, firstcode, firstsymbol, maxcode
      ensures ok <==> Accepted(lens)
      ensures ok ==> CodesFor(lens, 16) && forall s :: 1 <= s < 16 ==> nextCode[s] == First(lens, s)
    {
      hide End, Count, Pow2, Sym, MaxCode;
      SymOne(lens);
      var code, k := 0, 0;
      for i := 1 to 16
        invariant code == First(lens, i) && k == Sym(lens, i)
        invariant CodesFor(lens, i)
        invariant forall s :: 1 <= s < i ==> nextCode[s] == First(lens, s)
        invariant forall s :: 1 <= s < i && Count(lens, s) > 0 ==> End(lens, s) <= Pow2(s)
      {
        EndIs(lens, i);
        nextCode[i] := code;
        var next := code + sizes[i];
        if sizes[i] > 0 && next - 1 >= Pow2(i) {
          assert Count(lens, i) > 0 && End(lens, i) > Pow2(i);
          return false;
        }
        RecordLength(lens, i, code, next, k);
        code := 2 * next;
        k := k + sizes[i];
      }
      NoneOfSixteen(lens);
      ok := true;
    }

    /** The first code and symbol of one length, and the bound its windows end at. */
    method RecordLength(ghost lens: seq<nat>, i: nat, code: nat, next: nat, k: nat)
      requires Shape() && 1 <= i < 16 && CodesFor(lens, i)
      requires code == First(lens, i) && next == End(lens, i) && k == Sym(lens, i)
      modifies firstcode, firstsymbol, maxcode
      ensures CodesFor(lens, i + 1)
    {
      firstcode[i] := code;
      firstsymbol[i] := k;
      Preshift(lens, i);
      maxcode[i] := ShiftLeft(next, 16 - i);
    }

    method FillSymbols(lens: seq<nat>, nextCode: array<nat>)
      requires Shape() && |lens| <= ZNSYMS && nextCode.Length == 16 && nextCode !in Repr()
      requires Accepted(lens) && (forall i :: 0 <= i < |lens| ==> lens[i] < 16) && CodesFor(lens, 16)
      requires forall s :: 1 <= s < 16 ==> nextCode[s] == First(lens, s)
      requires forall j :: 0 <= j < ZFAST_SIZE ==> fast[j] == 0
      modifies nextCode, fast, size, value
      ensures SymbolsFor(lens, |lens|) && FastFor(lens, |lens|)
    {
      hide Fits, Accepted, Index;
      assert lens[..0] == [];
      for i := 0 to |lens|
        invariant forall s :: 1 <= s < 16 ==> nextCode[s] == First(lens, s) + Count(lens[..i], s)
        invariant SymbolsFor(lens, i) && FastFor(lens, i)
      {
        assert lens[..i + 1][..i] == lens[..i];
        var s := lens[i];
        if s > 0 {
          EnterSymbol(lens, i, nextCode[s]);
          nextCode[s] := nextCode[s] + 1;
        } else {
          FastSkips(lens, i);
        }
      }
    }

    method EnterSymbol(lens: seq<nat>, i: nat, code: nat)
      requires Shape() && i < |lens| <= ZNSYMS && Accepted(lens) && 0 < lens[i] < 16 && CodesFor(lens, 16)
      requires code == Code(lens, i) && SymbolsFor(lens, i) && FastFor(lens, i)
      modifies fast, size, value
      ensures SymbolsFor(lens, i + 1) && FastFor(lens, i + 1)
    {
      var s := lens[i];
      var c := code - firstcode[s] + firstsymbol[s];
      IndexBound(lens, i);
      forall k: nat | k < i && lens[k] > 0 ensures Index(lens, k) != c { IndexInjective(lens, k, i); }
      size[c] := s;
      value[c] := i;
      if s <= ZFAST_BITS {
        CodeFits(lens, i);
        BitReverseValue(code, s);
        FillFast(lens, i, BitReverse(code, s));
      } else {
        FastSkips(lens, i);
      }
    }

    /** A symbol without a short code leaves the fast table as it is. */
    lemma {:induction false} FastSkips(lens: seq<nat>, i: nat)
      requires Shape() && i < |lens| && !(0 < lens[i] <= ZFAST_BITS) && FastFor(lens, i)
      ensures FastFor(lens, i + 1)
    {
      hide Fits, FastEntry;
      forall j: nat | j < ZFAST_SIZE ensures FastEntry(lens, i + 1, fast[j], j) { EntrySkips(lens, i, fast[j], j); }
    }

    /** Enters symbol i under every index whose low bits are its reversed code. */
    method FillFast(lens: seq<nat>, i: nat, start: nat)
      requires Shape() && i < |lens| <= ZNSYMS && Accepted(lens) && 0 < lens[i] <= ZFAST_BITS
      requires start == Value(CodeBits(lens, i)) && FastFor(lens, i)
      modifies fast
      ensures FastFor(lens, i + 1)
    {
      var s := lens[i];
      StrideFill(start, Pow2(s), s * 512 + i);
      forall k: nat | k < ZFAST_SIZE ensures FastEntry(lens, i + 1, fast[k], k) {
        FitsIff(lens, i, k);
        EntryExtends(lens, i, old(fast[k]), k);
      }
    }

    method StrideFill(start: nat, step: nat, fastv: nat)
      requires Shape() && start < step
      modifies fast
      ensures forall k :: 0 <= k < ZFAST_SIZE ==> fast[k] == if k % step == start then fastv else old(fast[k])
    {
      var j := start;
      Remainder(start, 0, start, step);
      FirstIndex(step, start);
      while j < ZFAST_SIZE
        invariant j % step == start && j >= start
        invariant forall k :: 0 <= k < ZFAST_SIZE ==> fast[k] == if k < j && k % step == start then fastv else old(fast[k])
        decreases ZFAST_SIZE - j
      {
        fast[j] := fastv;
        NextIndex(j, step, start);
        j := j + step;
      }
    }

    // ---- Decoding ----

    /** The fast entry for a buffer: zero, or the length and number of the symbol whose code comes first. */
    method FastLookup(buffer: nat, ghost w: seq<bool>, ghost lens: seq<nat>) returns (b: nat)
      requires TablesFor(lens) && IsWindow(buffer, w)
      ensures b != 0 ==> b % 512 < |lens| && lens[b % 512] == b / 512 && Comes(lens, b % 512, w)
      ensures b == 0 ==> NoneShort(lens, w)
    {
      FastMask(buffer);
      b := fast[And(buffer, ZFAST_MASK)];
      EntryIsFirst(lens, b, buffer, w);
    }

    /** The length and number of the symbol whose code of ten or more bits comes first, if there is one. */
    method SlowLookup(buffer: nat, ghost w: seq<bool>, ghost lens: seq<nat>) returns (ok: bool, s: nat, r: nat)
      requires TablesFor(lens) && IsWindow(buffer, w) && NoneShort(lens, w)
      ensures ok ==> r < |lens| && lens[r] == s && Comes(lens, r, w)
      ensures !ok ==> forall i: nat :: !Comes(lens, i, w)
    {
      var k := BitReverse(buffer, 16);
      WindowValue(buffer, w);
      s := SearchLength(k, lens);
      if s >= 16 {
        NoneLong(lens, w, 15);
        return false, 0, 0;
      }
      ghost var i := LongSymbol(lens, w, s);
      ShiftRightValue(k, 16 - s);
      var b := ShiftRight(k, 16 - s) - firstcode[s] + firstsymbol[s];
      assert b == Index(lens, i);
      if b >= ZNSYMS || size[b] != s {
        assert false;
      }
      return true, s, value[b];
    }

    method SearchLength(k: nat, ghost lens: seq<nat>) returns (s: nat)
      requires TablesFor(lens) && k < 0x10000
      ensures ZFAST_BITS < s <= 16
      ensures s < 16 ==> k < MaxCode(lens, s)
      ensures s > ZFAST_BITS + 1 ==> k >= MaxCode(lens, s - 1)
    {
      s := ZFAST_BITS + 1;
      while k >= maxcode[s]
        invariant ZFAST_BITS < s <= 16
        invariant s > ZFAST_BITS + 1 ==> k >= maxcode[s - 1]
        decreases 16 - s
      {
        s := s + 1;
      }
    }
  }

  /** What the fast table says of the window. */
  lemma {:induction false} EntryIsFirst(lens: seq<nat>, b: nat, buffer: nat, w: seq<bool>)
    requires |lens| <= ZNSYMS && FastEntry(lens, |lens|, b, buffer % 512) && IsWindow(buffer, w)
    ensures b != 0 ==> b % 512 < |lens| && lens[b % 512] == b / 512 && Comes(lens, b % 512, w)
    ensures b == 0 ==> NoneShort(lens, w)
  {
    LowWindow(buffer, w);
    if b != 0 {
      EntryFits(lens, b, buffer % 512, w);
    } else {
      forall i: nat | i < |lens| && lens[i] <= ZFAST_BITS ensures !Comes(lens, i, w) {
        NotFirst(lens, i, buffer, w);
      }
    }
  }

  lemma {:induction false} EntryFits(lens: seq<nat>, b: nat, j: nat, w: seq<bool>)
    requires |lens| <= ZNSYMS && FastEntry(lens, |lens|, b, j) && b != 0 && |w| == LONGEST
    requires BitsOf(j, ZFAST_BITS) == w[..ZFAST_BITS]
    ensures b % 512 < |lens| && lens[b % 512] == b / 512 && Comes(lens, b % 512, w)
  {
    hide CodeBits;
    var i: nat :| i < |lens| && Fits(lens, i, j);
    FastParts(lens[i], i);
    PrefixOfPrefix(CodeBits(lens, i), w, ZFAST_BITS);
  }

  lemma {:induction false} NotFirst(lens: seq<nat>, i: nat, buffer: nat, w: seq<bool>)
    requires |lens| <= ZNSYMS && FastEntry(lens, |lens|, 0, buffer % 512) && IsWindow(buffer, w)
    requires i < |lens| && lens[i] <= ZFAST_BITS && BitsOf(buffer % 512, ZFAST_BITS) == w[..ZFAST_BITS]
    ensures !Comes(lens, i, w)
  {
    if lens[i] > 0 {
      PrefixOfPrefix(CodeBits(lens, i), w, ZFAST_BITS);
      assert !Fits(lens, i, buffer % 512);
    }
  }

  const ZFAST_MASK: nat := 511

  lemma {:induction false} FastMask(v: nat)
    ensures And(v, ZFAST_MASK) == v % 512
  {
    Pow2Values();
    AndMask(v, ZFAST_BITS);
  }

  /** The low sixteen bits of the buffer. */
  predicate IsWindow(buffer: nat, w: seq<bool>) { |w| == LONGEST && BitsOf(buffer, |w|) == w }

  lemma {:induction false} WindowValue(buffer: nat, w: seq<bool>)
    requires IsWindow(buffer, w)
    ensures BitReverse(buffer, 16) == ValueMsb(w) < 0x10000
  {
    BitReverse16Value(buffer);
    Pow2Values();
  }

  lemma {:induction false} PrefixOfPrefix(c: seq<bool>, w: seq<bool>, n: nat)
    requires |c| <= n <= |w|
    ensures c <= w[..n] <==> c <= w
  {
    assert w[..n][..|c|] == w[..|c|];
  }

  lemma {:induction false} FastParts(s: nat, i: nat)
    requires i < 512
    ensures (s * 512 + i) / 512 == s && (s * 512 + i) % 512 == i
  {
  }

  lemma {:induction false} LowWindow(buffer: nat, w: seq<bool>)
    requires IsWindow(buffer, w)
    ensures BitsOf(buffer % 512, ZFAST_BITS) == w[..ZFAST_BITS]
  {
    Pow2Values();
    BitsOfPrefix(buffer, ZFAST_BITS, |w| - ZFAST_BITS);
    Divide(buffer, 512);
    BitsOfLow(buffer % 512, buffer / 512, ZFAST_BITS);
  }

  lemma {:induction false} ShiftRightValue(v: nat, n: nat)
    ensures ShiftRight(v, n) == v / Pow2(n)
  {
    if n > 0 {
      ShiftRightValue(v / 2, n - 1);
      var p := Pow2(n - 1);
      var q := (v / 2) / p;
      Divide(v / 2, p);
      Double(p, q);
      Commute(2 * p, q);
      Remainder(v, q, v % 2 + 2 * ((v / 2) % p), 2 * p);
    }
  }

  lemma {:induction false} LowBits(v: nat, p: nat)
    requires p > 0
    ensures v % (2 * p) == v % 2 + 2 * ((v / 2) % p)
  {
    var q := (v / 2) / p;
    Divide(v / 2, p);
    Double(p, q);
    Commute(2 * p, q);
    Remainder(v, q, v % 2 + 2 * ((v / 2) % p), 2 * p);
  }

  lemma {:induction false} AndStep(v: nat, p: nat)
    requires p > 0
    ensures And(v, 2 * p - 1) == v % 2 + 2 * And(v / 2, p - 1)
  {
    assert (2 * p - 1) % 2 == 1 && (2 * p - 1) / 2 == p - 1;
  }

  /** `v & ((1 << n) - 1)` keeps the low bits. */
  lemma {:induction false} AndMask(v: nat, n: nat)
    ensures And(v, Pow2(n) - 1) == v % Pow2(n)
    decreases n
  {
    if n > 0 {
      AndMask(v / 2, n - 1);
      AndStep(v, Pow2(n - 1));
      LowBits(v, Pow2(n - 1));
    }
  }

  lemma {:induction false} EntryExtends(lens: seq<nat>, i: nat, entry: nat, k: nat)
    requires i < |lens| && Accepted(lens) && FastEntry(lens, i, entry, k)
    ensures FastEntry(lens, i + 1, if Fits(lens, i, k) then lens[i] * 512 + i else entry, k)
  {
    if Fits(lens, i, k) {
      forall i': nat | i' < i && Fits(lens, i', k) ensures false {
        PrefixFree(lens, i, i', BitsOf(k, ZFAST_BITS));
      }
    }
  }

  lemma {:induction false} Preshift(lens: seq<nat>, s: nat)
    requires 1 <= s <= 16
    ensures ShiftLeft(End(lens, s), 16 - s) == MaxCode(lens, s)
  {
    ShiftLeftValue(End(lens, s), 16 - s);
    Commute(Pow2(16 - s), End(lens, s));
  }

  lemma {:induction false} FirstIndex(step: nat, start: nat)
    requires start < step
    ensures forall k :: 0 <= k < start ==> k % step != start
  {
    forall k | 0 <= k < start ensures k % step != start { Remainder(k, 0, k, step); }
  }

  lemma {:induction false} NextIndex(j: nat, step: nat, start: nat)
    requires step > 0 && j % step == start
    ensures (j + step) % step == start
    ensures forall k :: j <= k < j + step && k % step == start ==> k == j
  {
    Divide(j, step);
    Distribute(j / step, 1, step);
    Commute(step, j / step);
    Remainder(j + step, j / step + 1, start, step);
    forall k | j <= k < j + step && k % step == start ensures k == j { SameResidue(j, k, step); }
  }

  lemma {:induction false} SymOne(lens: seq<nat>)
    ensures Sym(lens, 1) == 0 == First(lens, 1)
  {
  }

  lemma {:induction false} EndIs(lens: seq<nat>, s: nat)
    requires s >= 1
    ensures End(lens, s) == First(lens, s) + Count(lens, s) && First(lens, s + 1) == 2 * End(lens, s)
    ensures Sym(lens, s + 1) == Sym(lens, s) + Count(lens, s)
  {
    hide Count;
  }

  lemma {:induction false} NoneOfSixteen(lens: seq<nat>)
    requires forall i :: 0 <= i < |lens| ==> lens[i] < 16
    ensures Count(lens, 16) == 0 && Bounded(lens)
  {
    if lens != [] { NoneOfSixteen(lens[..|lens| - 1]); }
  }

  lemma {:induction false} NothingLonger(lens: seq<nat>)
    requires forall i :: 0 <= i < |lens| ==> lens[i] < 16
    ensures Bounded(lens)
  {
  }
}
