/** The fixed codes of section 3.2.6 of RFC 1951. */
module FixedCodes {
  import opened Bits
  import opened Canonical
  import opened Deflate

  /** How many of the first `n` literal symbols have a code of `s` bits. */
  function DefaultCount(n: nat, s: nat): int {
    if s == 7 then Between(n, 256, 280)
    else if s == 8 then Between(n, 0, 144) + Between(n, 280, 288)
    else if s == 9 then Between(n, 144, 256)
    else 0
  }

  function Between(n: nat, lo: nat, hi: nat): int {
    if n <= lo then 0 else if n <= hi then n - lo else hi - lo
  }

  lemma {:induction false} CountDefault(lens: seq<nat>, s: nat)
    requires |lens| <= 288 && forall i :: 0 <= i < |lens| ==> lens[i] == DefaultLength(i)
    ensures Count(lens, s) == DefaultCount(|lens|, s)
  {
    if lens != [] { CountDefault(lens[..|lens| - 1], s); }
  }

  lemma {:induction false} CountFives(lens: seq<nat>, s: nat)
    requires forall i :: 0 <= i < |lens| ==> lens[i] == 5
    ensures Count(lens, s) == if s == 5 then |lens| else 0
  {
    if lens != [] { CountFives(lens[..|lens| - 1], s); }
  }

  lemma {:induction false} NothingBelow(lens: seq<nat>, low: nat, s: nat)
    requires forall t :: 1 <= t < low ==> Count(lens, t) == 0
    requires 1 <= s < low
    ensures End(lens, s) == 0
  {
    if s > 1 { NothingBelow(lens, low, s - 1); }
  }

  lemma {:induction false} DefaultEnds(lens: seq<nat>)
    requires lens == DefaultLengths()
    ensures First(lens, 7) == 0 && First(lens, 8) == 0x30 && First(lens, 9) == 0x190
    ensures End(lens, 7) == 24 && End(lens, 8) == 200 && End(lens, 9) == 512
  {
    forall t | 1 <= t < 10 ensures Count(lens, t) == DefaultCount(288, t) { CountDefault(lens, t); }
    NothingBelow(lens, 7, 6);
    var s: nat := 7;
    assert End(lens, s) == 24;
    s := 8;
    assert End(lens, s) == 2 * End(lens, s - 1) + 152;
    s := 9;
    assert End(lens, s) == 2 * End(lens, s - 1) + 112;
  }

  /** The code of each literal symbol. */
  function DefaultCode(n: nat): int {
    if n <= 143 then 0x30 + n else if n <= 255 then 0x190 + n - 144 else if n <= 279 then n - 256 else 0xc0 + n - 280
  }

  lemma {:induction false} DefaultCodeIs(n: nat)
    requires n < 288
    ensures Code(DefaultLengths(), n) == DefaultCode(n) && DefaultLengths()[n] == DefaultLength(n)
  {
    var lens := DefaultLengths();
    DefaultEnds(lens);
    CountDefault(lens[..n], lens[n]);
  }

  lemma {:induction false} DistanceEnds(lens: seq<nat>)
    requires lens == DefaultDistances()
    ensures First(lens, 5) == 0 && End(lens, 5) == 32
  {
    forall t | 1 <= t < 10 ensures Count(lens, t) == if t == 5 then 32 else 0 { CountFives(lens, t); }
    NothingBelow(lens, 5, 4);
    var s: nat := 5;
    assert End(lens, s) == 2 * End(lens, s - 1) + 32;
  }

  lemma {:induction false} DistanceCodeIs(n: nat)
    requires n < 32
    ensures Code(DefaultDistances(), n) == n && DefaultDistances()[n] == 5
  {
    var lens := DefaultDistances();
    DistanceEnds(lens);
    CountFives(lens[..n], 5);
  }

  /** The fixed codes fill the code space and so are accepted. */
  lemma {:induction false} DefaultsAccepted()
    ensures Accepted(DefaultLengths()) && Accepted(DefaultDistances())
  {
    Pow2Values();
    var a, b := DefaultLengths(), DefaultDistances();
    DefaultEnds(a);
    DistanceEnds(b);
    forall s | 1 <= s <= LONGEST && Count(a, s) > 0 ensures End(a, s) <= Pow2(s) { CountDefault(a, s); }
    forall s | 1 <= s <= LONGEST && Count(b, s) > 0 ensures End(b, s) <= Pow2(s) { CountFives(b, s); }
  }
}
