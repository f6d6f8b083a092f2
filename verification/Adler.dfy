/** Adler-32 with the reductions put off to the end of each block of at most 5552 bytes. */
module Adler {
  import opened Bits

  const BASE: nat := 65521
  const UINT32: nat := 0x1_0000_0000

  datatype Sums = Sums(s1: nat, s2: nat)

  /** Section 8.2 of RFC 1950: both sums are reduced after every byte. */
  function Adler32(data: seq<byte>): Sums {
    if data == [] then Sums(1, 0)
    else
      var p := Adler32(data[..|data| - 1]);
      var s1 := (p.s1 + data[|data| - 1]) % BASE;
      Sums(s1, (p.s2 + s1) % BASE)
  }

  predicate HasSmallDivisor(n: nat) { n % 2 == 0 || n % 3 == 0 || n % 5 == 0 || n % 7 == 0 || n % 13 == 0 || n % 19 == 0 }

  /** The modulus is meant to be the largest prime below 2^16: every larger number is divided by one of the small
      primes up to 19, and it is not. */
  lemma {:induction false} LargerAreComposite(n: nat)
    requires BASE <= n < 0x1_0000
    ensures HasSmallDivisor(n) <==> n != BASE
  {
    match n - BASE {
      case 0 => case 1 => case 2 => case 3 => case 4 => case 5 => case 6 => case 7 =>
      case 8 => case 9 => case 10 => case 11 => case 12 => case 13 => case _ =>
    }
  }

  function Sum(data: seq<byte>): nat { if data == [] then 0 else Sum(data[..|data| - 1]) + data[|data| - 1] as nat }

  /** The sum of the sums of the data's beginnings. */
  function SumOfSums(data: seq<byte>): nat { if data == [] then 0 else SumOfSums(data[..|data| - 1]) + Sum(data) }

  lemma {:induction false} FirstSumIs(data: seq<byte>)
    ensures Adler32(data).s1 == (1 + Sum(data)) % BASE
  {
    if data != [] {
      var init := data[..|data| - 1];
      FirstSumIs(init);
      AddModulo((1 + Sum(init)) % BASE, 1 + Sum(init), data[|data| - 1]);
    }
  }

  lemma {:induction false} SecondSumIs(data: seq<byte>)
    ensures Adler32(data).s2 == (|data| + SumOfSums(data)) % BASE
  {
    if data != [] {
      var init := data[..|data| - 1];
      SecondSumIs(init);
      FirstSumIs(data);
      AddSums(|init| + SumOfSums(init), 1 + Sum(data));
    }
  }

  lemma {:induction false} AddSums(a: nat, b: nat)
    ensures (a % BASE + b % BASE) % BASE == (a + b) % BASE
  {
    AddModulo(a % BASE, a, b % BASE);
    AddModulo(b % BASE, b, a);
  }

  /** Reducing once at the end gives the same. */
  lemma {:induction false} AdlerIs(data: seq<byte>)
    ensures Adler32(data) == Sums((1 + Sum(data)) % BASE, (|data| + SumOfSums(data)) % BASE)
  {
    hide Adler32, Sum, SumOfSums;
    FirstSumIs(data);
    SecondSumIs(data);
  }

  /** 0 + 1 + ... + n. */
  function Triangle(n: nat): nat { if n == 0 then 0 else Triangle(n - 1) + n }

  lemma {:induction false} TriangleValue(n: nat)
    ensures 2 * Triangle(n) == n * (n + 1)
  {
    if n > 0 {
      TriangleValue(n - 1);
      assert n * (n + 1) == (n - 1) * n + 2 * n;
    }
  }

  lemma {:induction false} TriangleMonotone(m: nat, n: nat)
    requires m <= n
    ensures Triangle(m) <= Triangle(n)
  {
    if m < n { TriangleMonotone(m, n - 1); }
  }

  /** The largest sums within a block still fit in 32 bits. */
  lemma {:induction false} NoWrap(i: nat)
    requires i <= 5552
    ensures BASE - 1 + 255 * i < UINT32
    ensures BASE - 1 + (BASE - 1) * i + 255 * Triangle(i) < UINT32
  {
    TriangleMonotone(i, 5552);
    TriangleValue(5552);
  }

  /** 5552 bytes are the most for which both sums fit in any case. */
  lemma {:induction false} LargestBlock(n: nat)
    ensures n <= 5552 <==> BASE - 1 + (BASE - 1) * n + 255 * Triangle(n) < UINT32
  {
    if n <= 5552 {
      NoWrap(n);
    } else {
      TriangleMonotone(5553, n);
      TriangleValue(5553);
      assert (BASE - 1) * n >= (BASE - 1) * 5553;
    }
  }

  lemma {:induction false} AddModulo(a: nat, b: nat, c: nat)
    requires a % BASE == b % BASE
    ensures (a + c) % BASE == (b + c) % BASE
  {
  }

  /** The checksum of `data`.  The 32-bit sums never wrap. */
  method AdlerSums(data: seq<byte>) returns (s1: nat, s2: nat)
    ensures Adler32(data) == Sums(s1, s2)
  {
    s1, s2 := 1, 0;
    var blocklen: nat := |data| % 5552;
    var j := 0;
    ghost var left := |data| / 5552;
    assert data[..0] == [];
    while j < |data|
      invariant 0 <= blocklen <= 5552 && j <= |data|
      invariant j < |data| ==> left >= 0 && |data| - j - blocklen == 5552 * left
      invariant s1 < BASE && s2 < BASE && Adler32(data[..j]) == Sums(s1, s2)
      decreases |data| - j, 5552 - blocklen
    {
      s1, s2 := SumBlock(data, j, blocklen, s1, s2);
      s1, s2 := s1 % BASE, s2 % BASE;
      left := left - 1;
      j := j + blocklen;
      blocklen := 5552;
    }
    assert data[..|data|] == data;
  }

  lemma {:induction false} NextTriangle(i: nat)
    ensures Triangle(0) == 0 && Triangle(i + 1) == Triangle(i) + i + 1
  {
  }

  lemma {:induction false} NoSum(a: nat, b: nat)
    requires a < BASE && b < BASE
    ensures Sums(a % BASE, b % BASE) == Sums(a, b) && Triangle(0) == 0
  {
    NextTriangle(0);
  }

  method SumBlock(data: seq<byte>, j: nat, n: nat, a: nat, b: nat) returns (s1: nat, s2: nat)
    requires j + n <= |data| && n <= 5552 && a < BASE && b < BASE && Adler32(data[..j]) == Sums(a, b)
    ensures Adler32(data[..j + n]) == Sums(s1 % BASE, s2 % BASE)
    ensures s1 < UINT32 && s2 < UINT32
  {
    hide Adler32, Triangle;
    s1, s2 := a, b;
    NoSum(a, b);
    for i := 0 to n
      invariant s1 <= BASE - 1 + 255 * i && s2 <= BASE - 1 + (BASE - 1) * i + 255 * Triangle(i)
      invariant Adler32(data[..j + i]) == Sums(s1 % BASE, s2 % BASE)
    {
      NoWrap(i + 1);
      NextTriangle(i);
      AdlerStep(data, j + i, s1, s2);
      s1 := s1 + data[j + i];
      s2 := s2 + s1;
      assert s1 < UINT32 && s2 < UINT32;
    }
    NoWrap(n);
  }

  /** One more byte, whether or not the sums so far have been reduced. */
  lemma {:induction false} AdlerStep(data: seq<byte>, k: nat, s1: nat, s2: nat)
    requires k < |data| && Adler32(data[..k]) == Sums(s1 % BASE, s2 % BASE)
    ensures Adler32(data[..k + 1]) == Sums((s1 + data[k]) % BASE, (s2 + (s1 + data[k])) % BASE)
  {
    var t := (s1 + data[k]) % BASE;
    assert data[..k + 1][..k] == data[..k];
    AddModulo(s1 % BASE, s1, data[k]);
    AddModulo(s2 % BASE, s2, t);
    AddModulo(t, s1 + data[k], s2);
  }
}
