/** Bit strings, least significant bit first, and the C operators on unsigned values. */
module Bits {
  import opened Arithmetic

  type byte = x: int | 0 <= x < 256

  function Pow2(n: nat): (r: nat)
    ensures r >= 1
  {
    if n == 0 then 1 else 2 * Pow2(n - 1)
  }

  lemma {:induction false} Pow2Add(m: nat, n: nat)
    ensures Pow2(m + n) == Pow2(m) * Pow2(n)
  {
    if m > 0 { Pow2Add(m - 1, n); }
  }

  lemma {:induction false} Pow2Monotone(m: nat, n: nat)
    requires m <= n
    ensures Pow2(m) <= Pow2(n)
  {
    if m < n { Pow2Monotone(m, n - 1); }
  }

  lemma {:induction false} Pow2Values()
    ensures Pow2(1) == 2 && Pow2(2) == 4 && Pow2(3) == 8 && Pow2(4) == 16 && Pow2(5) == 32 && Pow2(6) == 64
    ensures Pow2(7) == 128 && Pow2(8) == 256 && Pow2(9) == 512 && Pow2(10) == 1024 && Pow2(11) == 2048
    ensures Pow2(12) == 4096 && Pow2(13) == 8192 && Pow2(14) == 16384 && Pow2(15) == 32768 && Pow2(16) == 65536
  {
    assert Pow2(4) == 16;
    Pow2Add(4, 4);
    Pow2Add(8, 4);
    Pow2Add(8, 8);
    assert Pow2(5) == 32 && Pow2(6) == 64 && Pow2(7) == 128;
    assert Pow2(9) == 512 && Pow2(10) == 1024 && Pow2(11) == 2048;
    assert Pow2(13) == 8192 && Pow2(14) == 16384 && Pow2(15) == 32768;
  }

  function PowerTable(n: nat): nat {
    if n < 7 then (if n == 0 then 1 else if n == 1 then 2 else if n == 2 then 4 else if n == 3 then 8
                   else if n == 4 then 16 else if n == 5 then 32 else 64)
    else (if n == 7 then 128 else if n == 8 then 256 else if n == 9 then 512 else if n == 10 then 1024
          else if n == 11 then 2048 else if n == 12 then 4096 else 8192)
  }

  lemma {:induction false} PowerAt(n: nat)
    requires n <= 13
    ensures Pow2(n) == PowerTable(n)
  {
    if n > 0 { PowerAt(n - 1); }
  }

  /** The low `n` bits of `v`. */
  function BitsOf(v: nat, n: nat): (r: seq<bool>)
    ensures |r| == n
  {
    if n == 0 then [] else [v % 2 == 1] + BitsOf(v / 2, n - 1)
  }

  function Value(b: seq<bool>): (r: nat)
    ensures r < Pow2(|b|)
  {
    if b == [] then 0 else (if b[0] then 1 else 0) + 2 * Value(b[1..])
  }

  function Zeros(n: nat): (r: seq<bool>)
    ensures |r| == n && forall i :: 0 <= i < n ==> !r[i]
  {
    seq(n, _ => false)
  }

  lemma {:induction false} ValueOfBits(v: nat, n: nat)
    requires v < Pow2(n)
    ensures Value(BitsOf(v, n)) == v
  {
    if n > 0 {
      ValueOfBits(v / 2, n - 1);
      assert BitsOf(v, n)[1..] == BitsOf(v / 2, n - 1);
    }
  }

  lemma {:induction false} BitsOfValue(b: seq<bool>)
    ensures BitsOf(Value(b), |b|) == b
  {
    if b != [] {
      BitsOfValue(b[1..]);
      assert Value(b) / 2 == Value(b[1..]) && (Value(b) % 2 == 1) == b[0];
      assert b == [b[0]] + b[1..];
    }
  }

  lemma {:induction false} Double(p: int, y: int)
    ensures 2 * (p * y) == (2 * p) * y
  {
  }

  lemma {:induction false} ValueStep(b: seq<bool>)
    requires b != []
    ensures Value(b) == (if b[0] then 1 else 0) + 2 * Value(b[1..])
  {
  }

  lemma {:induction false} NextPow2(n: nat)
    ensures Pow2(n + 1) == 2 * Pow2(n)
  {
  }

  lemma {:induction false} ValueConcat(a: seq<bool>, b: seq<bool>)
    ensures Value(a + b) == Value(a) + Pow2(|a|) * Value(b)
  {
    if a == [] {
      assert a + b == b;
    } else {
      var t, p, y := a[1..], Pow2(|a| - 1), Value(b);
      ValueConcat(t, b);
      assert (a + b)[1..] == t + b && (a + b)[0] == a[0];
      ValueStep(a + b);
      ValueStep(a);
      NextPow2(|a| - 1);
      Double(p, y);
    }
  }

  lemma {:induction false} Halve(a: nat, x: nat)
    ensures (a + 2 * x) / 2 == a / 2 + x && (a + 2 * x) % 2 == a % 2
  {
  }

  /** Bits written above the `m` bits already there follow them. */
  lemma {:induction false} BitsOfSum(a: nat, b: nat, m: nat, n: nat)
    requires a < Pow2(m)
    ensures BitsOf(a + Pow2(m) * b, m + n) == BitsOf(a, m) + BitsOf(b, n)
  {
    if m > 0 {
      var p := Pow2(m - 1);
      var x := p * b;
      Double(p, b);
      assert a + Pow2(m) * b == a + 2 * x;
      Halve(a, x);
      BitsOfSum(a / 2, b, m - 1, n);
      assert BitsOf(a + 2 * x, m + n) == [a % 2 == 1] + BitsOf(a / 2 + x, m - 1 + n);
    } else {
      assert BitsOf(a, m) == [];
    }
  }

  lemma {:induction false} BitsOfPrefix(v: nat, m: nat, n: nat)
    ensures BitsOf(v, m + n)[..m] == BitsOf(v, m)
    ensures BitsOf(v, m + n)[m..] == BitsOf(v / Pow2(m), n)
  {
    Divide(v, Pow2(m));
    BitsOfSum(v % Pow2(m), v / Pow2(m), m, n);
    BitsOfLow(v % Pow2(m), v / Pow2(m), m);
  }

  lemma {:induction false} Divide(v: nat, p: nat)
    requires p > 0
    ensures v == v % p + p * (v / p) && 0 <= v % p < p && v / p >= 0
  {
  }

  lemma {:induction false} BitsOfLow(r: nat, q: nat, m: nat)
    requires r < Pow2(m)
    ensures BitsOf(r + Pow2(m) * q, m) == BitsOf(r, m)
  {
    BitsOfSum(r, q, m, 0);
    assert BitsOf(q, 0) == [];
  }

  lemma {:induction false} BitsOfZero(n: nat)
    ensures BitsOf(0, n) == Zeros(n)
  {
    if n > 0 {
      BitsOfZero(n - 1);
      assert Zeros(n) == [false] + Zeros(n - 1);
    }
  }

  /** All the bits of a byte string. */
  function BitsOfBytes(data: seq<byte>): (r: seq<bool>)
    ensures |r| == 8 * |data|
  {
    if data == [] then [] else BitsOf(data[0], 8) + BitsOfBytes(data[1..])
  }

  lemma {:induction false} BitsOfBytesConcat(a: seq<byte>, b: seq<byte>)
    ensures BitsOfBytes(a + b) == BitsOfBytes(a) + BitsOfBytes(b)
  {
    if a == [] {
      assert a + b == b;
    } else {
      assert (a + b)[1..] == a[1..] + b;
      BitsOfBytesConcat(a[1..], b);
    }
  }

  /** The C `<<` and `>>` of unsigned values that do not overflow. */
  function ShiftLeft(v: nat, n: nat): nat { if n == 0 then v else 2 * ShiftLeft(v, n - 1) }

  function ShiftRight(v: nat, n: nat): nat { if n == 0 then v else ShiftRight(v / 2, n - 1) }

  lemma {:induction false} ShiftLeftValue(v: nat, n: nat)
    ensures ShiftLeft(v, n) == Pow2(n) * v
  {
    if n > 0 { ShiftLeftValue(v, n - 1); Double(Pow2(n - 1), v); }
  }

  lemma {:induction false} ShiftRightBits(v: nat, n: nat, m: nat)
    ensures BitsOf(v, n + m)[n..] == BitsOf(ShiftRight(v, n), m)
  {
    if n > 0 { ShiftRightBits(v / 2, n - 1, m); assert BitsOf(v, n + m)[1..] == BitsOf(v / 2, n - 1 + m); }
  }

  /** The C `|` of two unsigned values. */
  function Or(x: nat, y: nat): nat
    decreases x + y
  {
    if x == 0 then y else if y == 0 then x
    else (if x % 2 == 1 || y % 2 == 1 then 1 else 0) + 2 * Or(x / 2, y / 2)
  }

  /** `x | (y << m)` adds when `x` has only `m` bits. */
  lemma {:induction false} OrAbove(x: nat, y: nat, m: nat)
    requires x < Pow2(m)
    ensures Or(x, Pow2(m) * y) == x + Pow2(m) * y
    decreases m
  {
    if m > 0 && x != 0 && y != 0 {
      assert Pow2(m) * y == 2 * (Pow2(m - 1) * y);
      AtLeast(y, Pow2(m));
      OrAbove(x / 2, y, m - 1);
    }
  }

  function Reversed(b: seq<bool>): (r: seq<bool>)
    ensures |r| == |b| && forall i :: 0 <= i < |b| ==> r[i] == b[|b| - 1 - i]
  {
    if b == [] then [] else Reversed(b[1..]) + [b[0]]
  }

  /** The low `n` bits of `v` in the opposite order. */
  function ReverseValue(v: nat, n: nat): (r: nat)
    ensures r < Pow2(n)
  {
    Value(Reversed(BitsOf(v, n)))
  }

  /** Most significant bit first. */
  function ValueMsb(b: seq<bool>): nat { Value(Reversed(b)) }

  lemma {:induction false} ReversedConcat(a: seq<bool>, b: seq<bool>)
    ensures Reversed(a + b) == Reversed(b) + Reversed(a)
  {
  }

  lemma {:induction false} ReversedTwice(b: seq<bool>)
    ensures Reversed(Reversed(b)) == b
  {
  }

  /** A window of bits read from the top starts with a code exactly when the high bits are the code. */
  lemma {:induction false} PrefixIsQuotient(w: seq<bool>, s: nat)
    requires s <= |w|
    ensures ValueMsb(w[..s]) == ValueMsb(w) / Pow2(|w| - s)
  {
    var hi, lo := w[..s], w[s..];
    assert w == hi + lo;
    ReversedConcat(hi, lo);
    ValueConcat(Reversed(lo), Reversed(hi));
    assert ValueMsb(w) == ValueMsb(lo) + Pow2(|w| - s) * ValueMsb(hi);
    Commute(Pow2(|w| - s), ValueMsb(hi));
    Remainder(ValueMsb(w), ValueMsb(hi), ValueMsb(lo), Pow2(|w| - s));
  }

  /** Bits put in above the ones already in a buffer. */
  lemma {:induction false} PushBits(buf: nat, m: nat, code: nat, n: nat)
    requires buf < Pow2(m) && code < Pow2(n)
    ensures Or(buf, ShiftLeft(code, m)) < Pow2(m + n)
    ensures BitsOf(Or(buf, ShiftLeft(code, m)), m + n) == BitsOf(buf, m) + BitsOf(code, n)
  {
    ShiftLeftValue(code, m);
    OrAbove(buf, code, m);
    BitsOfSum(buf, code, m, n);
    Pow2Add(m, n);
    Scale(code + 1, Pow2(n), Pow2(m));
    Distribute(code, 1, Pow2(m));
    Commute(Pow2(m), code);
    Commute(Pow2(m), Pow2(n));
  }

  lemma {:induction false} BitsOfByte(input: seq<byte>, p: nat, k: nat)
    requires p < |input| && k < 8
    ensures BitsOfBytes(input)[8 * p + k] == BitsOf(input[p], 8)[k]
  {
    if p > 0 { BitsOfByte(input[1..], p - 1, k); }
  }

  // ---- Bytes of a stream ----

  /** Past the end of the input every byte reads as zero. */
  function ByteAt(input: seq<byte>, p: nat): byte { if p < |input| then input[p] else 0 }

  /** The bytes `b` come at `pos`. */
  predicate Has(input: seq<byte>, pos: nat, b: seq<byte>) { pos + |b| <= |input| && input[pos..pos + |b|] == b }

  lemma {:induction false} HasSplit(input: seq<byte>, pos: nat, a: seq<byte>, b: seq<byte>)
    requires Has(input, pos, a + b)
    ensures Has(input, pos, a) && Has(input, pos + |a|, b)
  {
    var w := input[pos..pos + |a + b|];
    assert w[..|a|] == a && w[|a|..] == b;
    assert input[pos..pos + |a|] == w[..|a|] && input[pos + |a|..pos + |a| + |b|] == w[|a|..];
  }
}
