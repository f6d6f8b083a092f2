/** Canonical Huffman codes: symbol i gets a code of lens[i] bits, or none when lens[i] is zero.  Codes of
    one length are consecutive in symbol order and follow the codes of the shorter lengths. */
module Canonical {
  import opened Arithmetic
  import opened Bits

  const LONGEST: nat := 16

  function Count(lens: seq<nat>, s: nat): (r: nat)
    ensures r <= |lens|
  {
    if lens == [] then 0 else Count(lens[..|lens| - 1], s) + (if lens[|lens| - 1] == s then 1 else 0)
  }

  /** The first code of `s` bits. */
  function First(lens: seq<nat>, s: nat): nat {
    if s <= 1 then 0 else 2 * End(lens, s - 1)
  }

  /** One past the last code of `s` bits. */
  function End(lens: seq<nat>, s: nat): nat
    decreases s, 1
  {
    (if s <= 1 then 0 else 2 * End(lens, s - 1)) + Count(lens, s)
  }

  predicate Bounded(lens: seq<nat>) { forall i :: 0 <= i < |lens| ==> lens[i] <= LONGEST }

  /** What the table builders check: codes of a length in use fit in that many bits. */
  predicate Accepted(lens: seq<nat>) {
    Bounded(lens) && forall s :: 1 <= s <= LONGEST && Count(lens, s) > 0 ==> End(lens, s) <= Pow2(s)
  }

  function Code(lens: seq<nat>, i: nat): nat
    requires i < |lens|
  {
    First(lens, lens[i]) + Count(lens[..i], lens[i])
  }

  /** The bits of symbol i's code, as they are sent: most significant first. */
  function CodeBits(lens: seq<nat>, i: nat): (r: seq<bool>)
    requires i < |lens|
    ensures |r| == lens[i]
  {
    Reversed(BitsOf(Code(lens, i), lens[i]))
  }

  /** The code of symbol i comes first in these bits. */
  predicate Comes(lens: seq<nat>, i: nat, bits: seq<bool>) {
    i < |lens| && lens[i] > 0 && CodeBits(lens, i) <= bits
  }

  /** One past the last 16-bit window that starts with a code of at most `s` bits. */
  function MaxCode(lens: seq<nat>, s: nat): nat
    requires s <= LONGEST
  {
    End(lens, s) * Pow2(LONGEST - s)
  }

  /** The 16-bit window `k`, most significant bit first, starts with symbol i's code. */
  predicate Matches(lens: seq<nat>, i: nat, k: nat) {
    i < |lens| && 0 < lens[i] <= LONGEST && k / Pow2(LONGEST - lens[i]) == Code(lens, i)
  }

  lemma {:induction false} EndBound(lens: seq<nat>, s: nat)
    requires Accepted(lens) && 1 <= s <= LONGEST
    ensures End(lens, s) <= Pow2(s)
  {
    if s > 1 { EndBound(lens, s - 1); }
  }

  lemma {:induction false} CountPrefix(lens: seq<nat>, i: nat, j: nat, s: nat)
    requires i <= j <= |lens|
    ensures Count(lens[..i], s) <= Count(lens[..j], s)
    ensures i < j && lens[i] == s ==> Count(lens[..i], s) < Count(lens[..j], s)
  {
    if i < j {
      assert lens[..j][..j - 1] == lens[..j - 1];
      CountPrefix(lens, i, j - 1, s);
    }
  }

  /** The m-th symbol, from zero, with a code of `s` bits. */
  lemma {:induction false} Nth(lens: seq<nat>, s: nat, m: nat) returns (i: nat)
    requires m < Count(lens, s)
    ensures i < |lens| && lens[i] == s && Count(lens[..i], s) == m
  {
    var n := |lens| - 1;
    if lens[n] == s && Count(lens[..n], s) == m {
      i := n;
    } else {
      i := Nth(lens[..n], s, m);
      assert lens[..n][..i] == lens[..i];
    }
  }

  /** The windows of the codes of `s` bits start where those of the shorter codes end. */
  lemma {:induction false} MaxCodeStep(lens: seq<nat>, s: nat)
    requires 1 <= s <= LONGEST
    ensures MaxCode(lens, s) == First(lens, s) * Pow2(LONGEST - s) + Count(lens, s) * Pow2(LONGEST - s)
    ensures First(lens, s) * Pow2(LONGEST - s) == if s == 1 then 0 else MaxCode(lens, s - 1)
    ensures MaxCode(lens, if s == 1 then 1 else s - 1) <= MaxCode(lens, s)
  {
    hide Pow2, Count;
    var p := Pow2(LONGEST - s);
    Distribute(First(lens, s), Count(lens, s), p);
    Scale(0, Count(lens, s), p);
    if s > 1 {
      NextPow2(LONGEST - s);
      DoubleEither(End(lens, s - 1), p);
    }
  }

  lemma {:induction false} DoubleEither(e: int, p: int)
    ensures (2 * e) * p == e * (2 * p)
  {
  }

  lemma {:induction false} MaxCodeMonotone(lens: seq<nat>, s: nat, t: nat)
    requires 1 <= s <= t <= LONGEST
    ensures MaxCode(lens, s) <= MaxCode(lens, t)
  {
    if s < t {
      MaxCodeMonotone(lens, s, t - 1);
      MaxCodeStep(lens, t);
    }
  }

  /** A code lies among those of its length. */
  lemma {:induction false} CodeBounds(lens: seq<nat>, i: nat)
    requires i < |lens| && lens[i] > 0
    ensures First(lens, lens[i]) <= Code(lens, i) < End(lens, lens[i])
  {
    CountPrefix(lens, i, |lens|, lens[i]);
    assert lens[..|lens|] == lens;
  }

  /** Where the windows of one code lie. */
  lemma {:induction false} MatchRange(lens: seq<nat>, i: nat, k: nat)
    requires i < |lens| && 0 < lens[i] <= LONGEST
    ensures Matches(lens, i, k) <==>
      Code(lens, i) * Pow2(LONGEST - lens[i]) <= k < (Code(lens, i) + 1) * Pow2(LONGEST - lens[i])
    ensures First(lens, lens[i]) * Pow2(LONGEST - lens[i]) <= Code(lens, i) * Pow2(LONGEST - lens[i])
    ensures (Code(lens, i) + 1) * Pow2(LONGEST - lens[i]) <= MaxCode(lens, lens[i])
  {
    hide Code, First, End, Pow2;
    var s := lens[i];
    var p, c := Pow2(LONGEST - s), Code(lens, i);
    CodeBounds(lens, i);
    Scale(First(lens, s), c, p);
    Scale(c + 1, End(lens, s), p);
    Distribute(c, 1, p);
    Quotient(k, c, p);
  }

  lemma {:induction false} Quotient(k: nat, c: nat, p: nat)
    requires p > 0
    ensures k / p == c <==> c * p <= k < c * p + p
  {
    Divide(k, p);
    Commute(p, k / p);
    if c * p <= k < c * p + p { Remainder(k, c, k - c * p, p); }
  }

  /** The 16-bit windows that start with a code of at most `s` bits are exactly those below MaxCode. */
  lemma {:induction false} WindowsIff(lens: seq<nat>, k: nat, s: nat)
    requires Accepted(lens) && 1 <= s <= LONGEST
    ensures k < MaxCode(lens, s) <==> exists i: nat :: Matches(lens, i, k) && lens[i] <= s
  {
    if k < MaxCode(lens, s) {
      var _ := SymbolOf(lens, k, s);
    }
    forall i: nat | Matches(lens, i, k) && lens[i] <= s ensures k < MaxCode(lens, s) {
      MatchRange(lens, i, k);
      MaxCodeMonotone(lens, lens[i], s);
    }
  }

  lemma {:induction false} SymbolOf(lens: seq<nat>, k: nat, s: nat) returns (i: nat)
    requires Accepted(lens) && 1 <= s <= LONGEST && k < MaxCode(lens, s)
    ensures Matches(lens, i, k) && lens[i] <= s
  {
    MaxCodeStep(lens, s);
    if s > 1 && k < MaxCode(lens, s - 1) {
      i := SymbolOf(lens, k, s - 1);
    } else {
      i := SymbolOfLength(lens, k, s);
    }
  }

  /** Between the shorter windows and MaxCode(s), the code is the s-bit one at that offset. */
  lemma {:induction false} SymbolOfLength(lens: seq<nat>, k: nat, s: nat) returns (i: nat)
    requires 1 <= s <= LONGEST && First(lens, s) * Pow2(LONGEST - s) <= k < MaxCode(lens, s)
    ensures Matches(lens, i, k) && lens[i] == s
    ensures k / Pow2(LONGEST - s) - First(lens, s) == Count(lens[..i], s)
  {
    var p := Pow2(LONGEST - s);
    var c := k / p;
    Divide(k, p);
    Commute(p, c);
    if c < First(lens, s) { Scale(c + 1, First(lens, s), p); Distribute(c, 1, p); }
    if c >= End(lens, s) { Scale(End(lens, s), c, p); }
    i := Nth(lens, s, c - First(lens, s));
  }

  /** No window starts with two codes. */
  lemma {:induction false} MatchIsUnique(lens: seq<nat>, i: nat, j: nat, k: nat)
    requires Matches(lens, i, k) && Matches(lens, j, k)
    ensures i == j
  {
    MatchRange(lens, i, k);
    MatchRange(lens, j, k);
    if lens[i] == lens[j] {
      CountPrefix(lens, if i < j then i else j, if i < j then j else i, lens[i]);
    } else {
      var a, b := if lens[i] < lens[j] then i else j, if lens[i] < lens[j] then j else i;
      MaxCodeStep(lens, lens[b]);
      MaxCodeMonotone(lens, lens[a], lens[b] - 1);
    }
  }

  // ---- Which lists are accepted ----

  /** Kraft's sum over the codes of at most `s` bits, in units of 2^-16. */
  function Kraft(lens: seq<nat>, s: nat): nat
    requires s <= LONGEST
  {
    if lens == [] then 0
    else
      var last := lens[|lens| - 1];
      Kraft(lens[..|lens| - 1], s) + (if 0 < last <= s then Pow2(LONGEST - last) else 0)
  }

  lemma {:induction false} KraftStep(lens: seq<nat>, s: nat)
    requires 1 <= s <= LONGEST
    ensures Kraft(lens, s) == Kraft(lens, s - 1) + Count(lens, s) * Pow2(LONGEST - s)
  {
    if lens != [] {
      KraftStep(lens[..|lens| - 1], s);
      Distribute(Count(lens[..|lens| - 1], s), 1, Pow2(LONGEST - s));
    }
  }

  lemma {:induction false} KraftZero(lens: seq<nat>)
    ensures Kraft(lens, 0) == 0
  {
    if lens != [] { KraftZero(lens[..|lens| - 1]); }
  }

  lemma {:induction false} KraftIsMaxCode(lens: seq<nat>, s: nat)
    requires 1 <= s <= LONGEST
    ensures Kraft(lens, s) == MaxCode(lens, s)
  {
    KraftStep(lens, s);
    MaxCodeStep(lens, s);
    if s == 1 { KraftZero(lens); } else { KraftIsMaxCode(lens, s - 1); }
  }

  lemma {:induction false} MaxCodeAtTop(lens: seq<nat>)
    ensures MaxCode(lens, LONGEST) == End(lens, LONGEST)
  {
    hide End;
    assert Pow2(0) == 1;
  }

  lemma {:induction false} EndFits(lens: seq<nat>, s: nat)
    requires s <= LONGEST && MaxCode(lens, s) <= Pow2(LONGEST)
    ensures End(lens, s) <= Pow2(s)
  {
    hide Pow2, End;
    Pow2Add(s, LONGEST - s);
    ScaleDown(End(lens, s), Pow2(s), Pow2(LONGEST - s));
  }

  /** A list is accepted exactly when its code lengths satisfy Kraft's inequality. */
  lemma {:induction false} AcceptedIffKraft(lens: seq<nat>)
    requires Bounded(lens)
    ensures Accepted(lens) <==> Kraft(lens, LONGEST) <= Pow2(LONGEST)
  {
    hide Kraft, MaxCode, End, Pow2, Count;
    KraftIsMaxCode(lens, LONGEST);
    if Accepted(lens) {
      EndBound(lens, LONGEST);
      MaxCodeAtTop(lens);
    }
    if Kraft(lens, LONGEST) <= Pow2(LONGEST) {
      forall s | 1 <= s <= LONGEST && Count(lens, s) > 0 ensures End(lens, s) <= Pow2(s) {
        MaxCodeMonotone(lens, s, LONGEST);
        EndFits(lens, s);
      }
    }
  }

  // ---- Codes as bits ----

  lemma {:induction false} CodeFits(lens: seq<nat>, i: nat)
    requires Accepted(lens) && i < |lens| && lens[i] > 0
    ensures Code(lens, i) < Pow2(lens[i])
  {
    EndBound(lens, lens[i]);
    CountPrefix(lens, i, |lens|, lens[i]);
    assert lens[..|lens|] == lens;
  }

  lemma {:induction false} MsbOfReversed(v: nat, n: nat)
    requires v < Pow2(n)
    ensures ValueMsb(Reversed(BitsOf(v, n))) == v
  {
    ReversedTwice(BitsOf(v, n));
    ValueOfBits(v, n);
  }

  lemma {:induction false} MsbInjective(a: seq<bool>, b: seq<bool>)
    requires |a| == |b| && ValueMsb(a) == ValueMsb(b)
    ensures a == b
  {
    BitsOfValue(Reversed(a));
    BitsOfValue(Reversed(b));
    ReversedTwice(a);
    ReversedTwice(b);
  }

  /** Sixteen bits of a stream start with symbol i's code exactly when their window matches it. */
  lemma {:induction false} PrefixIffMatches(lens: seq<nat>, i: nat, bits: seq<bool>)
    requires Accepted(lens) && i < |lens| && lens[i] > 0 && |bits| == LONGEST
    ensures CodeBits(lens, i) <= bits <==> Matches(lens, i, ValueMsb(bits))
  {
    var s, c := lens[i], CodeBits(lens, i);
    CodeFits(lens, i);
    MsbOfReversed(Code(lens, i), s);
    PrefixIsQuotient(bits, s);
    if ValueMsb(bits[..s]) == ValueMsb(c) { MsbInjective(bits[..s], c); }
    assert c <= bits <==> c == bits[..s];
  }

  /** No code is a prefix of another. */
  lemma {:induction false} PrefixFree(lens: seq<nat>, i: nat, j: nat, bits: seq<bool>)
    requires Accepted(lens) && i < |lens| && j < |lens| && lens[i] > 0 && lens[j] > 0
    requires CodeBits(lens, i) <= bits && CodeBits(lens, j) <= bits
    ensures i == j
  {
    var w := (bits + Zeros(LONGEST))[..LONGEST];
    PrefixIffMatches(lens, i, w);
    PrefixIffMatches(lens, j, w);
    MatchIsUnique(lens, i, j, ValueMsb(w));
  }

  // ---- Codes longer than a fast table's index ----

  const FAST: nat := 9

  predicate NoneShort(lens: seq<nat>, bits: seq<bool>) {
    forall i: nat :: i < |lens| && lens[i] <= FAST ==> !Comes(lens, i, bits)
  }

  /** Above every window of a code, no code comes first. */
  lemma {:induction false} NoneLong(lens: seq<nat>, w: seq<bool>, s: nat)
    requires Accepted(lens) && 1 <= s <= LONGEST && (forall i :: 0 <= i < |lens| ==> lens[i] <= s) && |w| == LONGEST
    requires ValueMsb(w) >= MaxCode(lens, s)
    ensures forall i: nat :: !Comes(lens, i, w)
  {
    WindowsIff(lens, ValueMsb(w), s);
    forall i: nat | Comes(lens, i, w) ensures false { PrefixIffMatches(lens, i, w); }
  }

  /** The symbol of `s` bits, the shortest length whose windows reach this one. */
  lemma {:induction false} LongSymbol(lens: seq<nat>, w: seq<bool>, s: nat) returns (i: nat)
    requires Accepted(lens) && NoneShort(lens, w) && |w| == LONGEST && FAST < s <= LONGEST
    requires ValueMsb(w) < MaxCode(lens, s) && (s > FAST + 1 ==> ValueMsb(w) >= MaxCode(lens, s - 1))
    ensures i < |lens| && lens[i] == s && Comes(lens, i, w)
    ensures ValueMsb(w) / Pow2(LONGEST - s) - First(lens, s) == Count(lens[..i], s)
  {
    var k := ValueMsb(w);
    if s == FAST + 1 && k < MaxCode(lens, FAST) {
      var j := SymbolOf(lens, k, FAST);
      PrefixIffMatches(lens, j, w);
    }
    MaxCodeStep(lens, s);
    i := SymbolOfLength(lens, k, s);
    PrefixIffMatches(lens, i, w);
  }
}
