/** The deflate encoder: one block of fixed codes found with hashed match lists, or stored blocks when
    that would be shorter. */
module ZEncoder {
  import opened Bits
  import opened BitReversal
  import opened Canonical
  import opened Deflate
  import opened FixedCodes
  import opened ZEncoding

  const ZHASH: nat := 16384
  const LENGTHC: seq<nat> := [3, 4, 5, 6, 7, 8, 9, 10, 11, 13, 15, 17, 19, 23, 27, 31, 35, 43, 51, 59,
                              67, 83, 99, 115, 131, 163, 195, 227, 258, 259]
  const LENGTHEB: seq<nat> := [0, 0, 0, 0, 0, 0, 0, 0, 1, 1, 1, 1, 2, 2, 2, 2, 3, 3, 3, 3,
                               4, 4, 4, 4, 5, 5, 5, 5, 0]
  const DISTC: seq<nat> := [1, 2, 3, 4, 5, 7, 9, 13, 17, 25, 33, 49, 65, 97, 129, 193, 257, 385, 513, 769,
                            1025, 1537, 2049, 3073, 4097, 6145, 8193, 12289, 16385, 24577, 32768]
  const DISTEB: seq<nat> := [0, 0, 0, 0, 1, 1, 2, 2, 3, 3, 4, 4, 5, 5, 6, 6, 7, 7, 8, 8,
                             9, 9, 10, 10, 11, 11, 12, 12, 13, 13]

  /** The scrambling steps of the hash, in 32-bit arithmetic. */
  function Scramble(h0: bv32): bv32 {
    var h1 := h0 ^ (h0 << 3);
    var h2 := h1 + (h1 >> 5);
    var h3 := h2 ^ (h2 << 4);
    var h4 := h3 + (h3 >> 17);
    var h5 := h4 ^ (h4 << 25);
    h5 + (h5 >> 6)
  }

  function Pack(a: byte, b: byte, c: byte): (r: nat)
    ensures r < 0x100_0000
  {
    var x: int, y: int, z: int := a, b, c;
    x + 256 * y + 65536 * z
  }

  function Spread(v: nat): (h: nat)
    requires v < 0x1_0000_0000
    ensures h < ZHASH
  {
    (Scramble(v as bv32) as nat) % ZHASH
  }

  /** The list for the three bytes at `i`. */
  function Bucket(data: seq<byte>, i: nat): (h: nat)
    requires i + 3 <= |data|
    ensures h < ZHASH
  {
    Spread(Pack(data[i], data[i + 1], data[i + 2]))
  }

  /** The `n` bytes from `p` and from `i` agree. */
  predicate Agree(data: seq<byte>, p: nat, i: nat, n: nat) {
    p <= i && i + n <= |data| && data[p..p + n] == data[i..i + n]
  }

  lemma {:induction false} AgreeLonger(data: seq<byte>, p: nat, i: nat, n: nat)
    requires Agree(data, p, i, n) && i + n < |data|
    ensures Agree(data, p, i, n + 1) <==> data[p + n] == data[i + n]
  {
    assert data[p..p + n + 1] == data[p..p + n] + [data[p + n]];
    assert data[i..i + n + 1] == data[i..i + n] + [data[i + n]];
  }

  lemma {:induction false} AgreeShorter(data: seq<byte>, p: nat, i: nat, m: nat, n: nat)
    requires Agree(data, p, i, n) && m <= n
    ensures Agree(data, p, i, m)
  {
    assert data[p..p + m] == data[p..p + n][..m] && data[i..i + m] == data[i..i + n][..m];
  }

  /** How far two positions agree, up to a limit and at most 258. */
  method Countm(data: seq<byte>, p: nat, i: nat, limit: nat) returns (n: nat)
    requires p <= i && i + limit <= |data|
    ensures n <= limit && n <= 258
    ensures forall m: nat :: m <= limit && m <= 258 ==> (Agree(data, p, i, m) <==> m <= n)
  {
    n := 0;
    while n < limit && n < 258
      invariant n <= limit && n <= 258 && Agree(data, p, i, n)
    {
      AgreeLonger(data, p, i, n);
      if data[p + n] != data[i + n] { break; }
      n := n + 1;
    }
    forall m: nat | m <= limit && m <= 258 ensures Agree(data, p, i, m) <==> m <= n {
      if m <= n {
        AgreeShorter(data, p, i, m, n);
      } else if Agree(data, p, i, m) {
        AgreeShorter(data, p, i, n + 1, m);
        AgreeLonger(data, p, i, n);
      }
    }
  }

  /** Copying from a position that agrees reproduces the data, overlaps included. */
  lemma {:induction false} CopyReproduces(data: seq<byte>, p: nat, i: nat, n: nat)
    requires p < i && Agree(data, p, i, n)
    ensures Copy(data[..i], i - p, n) == data[..i + n]
    decreases n
  {
    if n > 0 {
      assert data[p..p + n][0] == data[i..i + n][0];
      assert data[..i] + [data[i]] == data[..i + 1];
      assert data[p + 1..p + n] == data[p..p + n][1..] && data[i + 1..i + n] == data[i..i + n][1..];
      CopyReproduces(data, p + 1, i + 1, n - 1);
    }
  }

  /** A search result: no match, or one that the decoder can copy. */
  predicate IsMatch(data: seq<byte>, i: nat, found: bool, p: nat, best: nat) {
    found ==> p < i && i - p <= 32767 && 3 <= best <= 258 && Agree(data, p, i, best)
  }

  predicate Earlier(list: seq<nat>, i: nat) { forall k :: 0 <= k < |list| ==> list[k] < i }

  /** Position `p` is in the window and agrees with `i` for `m` bytes. */
  predicate Reaches(data: seq<byte>, p: nat, i: nat, window: nat, m: nat) {
    p as int > i - window && m <= 258 && Agree(data, p, i, m)
  }

  /** The last of the longest matches, of at least three bytes, among the listed positions. */
  method FindMatch(data: seq<byte>, list: seq<nat>, i: nat) returns (found: bool, p: nat, best: nat)
    requires i <= |data| && Earlier(list, i)
    ensures best >= 3 && IsMatch(data, i, found, p, best)
    ensures forall k, m: nat :: 0 <= k < |list| && m >= 3 && Reaches(data, list[k], i, 32768, m) ==> found && m <= best
  {
    found, p, best := false, 0, 3;
    for j := 0 to |list|
      invariant best >= 3 && IsMatch(data, i, found, p, best) && (!found ==> best == 3)
      invariant forall k, m: nat :: 0 <= k < j && m >= 3 && Reaches(data, list[k], i, 32768, m) ==> found && m <= best
    {
      if list[j] as int > i - 32768 {
        var d := Countm(data, list[j], i, |data| - i);
        if d >= best {
          found, p, best := true, list[j], d;
        }
      }
    }
  }

  /** Whether the next byte starts a longer match. */
  method BetterMatch(data: seq<byte>, list: seq<nat>, i: nat, best: nat) returns (better: bool)
    requires i + 1 <= |data| && Earlier(list, i + 1)
    ensures better <==> exists k :: 0 <= k < |list| && Reaches(data, list[k], i + 1, 32768, best + 1)
  {
    for j := 0 to |list|
      invariant forall k :: 0 <= k < j ==> !Reaches(data, list[k], i + 1, 32768, best + 1)
    {
      if list[j] as int > i - 32767 {
        var e := Countm(data, list[j], i + 1, |data| - i - 1);
        if e > best {
          assert Reaches(data, list[j], i + 1, 32768, best + 1);
          return true;
        }
      }
    }
    return false;
  }

  class ZWriter {
    var out: seq<byte>
    var bitbuf: nat
    var bitcount: nat

    ghost predicate Valid()
      reads this
    {
      bitbuf < Pow2(bitcount) && bitcount < 8
    }

    /** Every bit written so far. */
    ghost function Written(): seq<bool>
      reads this
    {
      BitsOfBytes(out) + BitsOf(bitbuf, bitcount)
    }

    lemma {:induction false} WrittenLength()
      requires Valid()
      ensures bitcount < 8 && |Written()| == 8 * |out| + bitcount
    {
    }

    lemma {:induction false} WrittenWhole()
      requires Valid() && bitcount == 0
      ensures Written() == BitsOfBytes(out)
    {
    }

    constructor ()
      ensures Valid() && out == [0x78, 0x5e] && bitcount == 0
    {
      out := [0x78, 0x5e];
      bitbuf, bitcount := 0, 0;
    }

    method Flush()
      requires bitbuf < Pow2(bitcount)
      modifies this
      ensures Valid() && Written() == old(Written())
    {
      while bitcount >= 8
        invariant bitbuf < Pow2(bitcount) && Written() == old(Written())
        decreases bitcount
      {
        MoveByte(out, bitbuf, bitcount);
        out := out + [bitbuf % 256];
        bitbuf := ShiftRight(bitbuf, 8);
        bitcount := bitcount - 8;
      }
    }

    method Add(code: nat, codebits: nat)
      requires Valid() && code < Pow2(codebits) && codebits <= 13
      modifies this
      ensures Valid() && Written() == old(Written()) + BitsOf(code, codebits)
    {
      PushBits(bitbuf, bitcount, code, codebits);
      bitbuf := Or(bitbuf, ShiftLeft(code, bitcount));
      bitcount := bitcount + codebits;
      NoOverflow(bitcount);
      assert bitbuf < 0x1_0000_0000;
      Flush();
    }

    method Huffa(code: nat, codebits: nat)
      requires Valid() && codebits <= 13 && code < Pow2(codebits)
      modifies this
      ensures Valid() && Written() == old(Written()) + Reversed(BitsOf(code, codebits))
    {
      var reversed := Bitrev(code, codebits);
      Add(reversed, codebits);
    }

    /** Writes the code of a literal, length or end-of-block symbol. */
    method Huff(n: nat)
      requires Valid() && n < 288
      modifies this
      ensures Valid() && Written() == old(Written()) + CodeBits(DefaultLengths(), n)
    {
      hide Valid, Written, DefaultLengths, Reversed, BitsOf, Pow2;
      DefaultCodeIs(n);
      Pow2Values();
      if n <= 143 {
        Huffa(0x30 + n, 8);
      } else if n <= 255 {
        Huffa(0x190 + n - 144, 9);
      } else if n <= 279 {
        Huffa(n - 256, 7);
      } else {
        Huffa(0xc0 + n - 280, 8);
      }
    }

    /** Writes the length of a match. */
    method PutLength(best: nat)
      requires Valid() && 3 <= best <= 258
      modifies this
      ensures Valid() && Written() == old(Written()) + LengthBits(best)
    {
      hide Valid, Written, BitsOf, CodeBits, DefaultLengths, LengthBase, LengthExtra, LengthIndex, Pow2;
      var j, base, extra := FindLength(best);
      Huff(j + 257);
      ExtraBits(LengthBits(best), CodeBits(DefaultLengths(), 257 + j), best - base, extra);
      if extra != 0 {
        Add(best - base, extra);
      }
    }

    /** Writes the distance of a match. */
    method PutDistance(d: nat)
      requires Valid() && 1 <= d <= 32767
      modifies this
      ensures Valid() && Written() == old(Written()) + DistBits(d)
    {
      hide Valid, Written, BitsOf, CodeBits, DefaultDistances, DistBase, DistExtra, DistIndex, Pow2;
      var j, base, extra := FindDistance(d);
      PutFiveBits(j);
      ExtraBits(DistBits(d), CodeBits(DefaultDistances(), j), d - base, extra);
      if extra != 0 {
        Add(d - base, extra);
      }
    }

    method PutFiveBits(j: nat)
      requires Valid() && j < 30
      modifies this
      ensures Valid() && Written() == old(Written()) + CodeBits(DefaultDistances(), j)
    {
      DistanceCodeIs(j);
      PowerAt(5);
      Huffa(j, 5);
    }
  }

  /** With no extra bits the code is all. */
  lemma {:induction false} ExtraBits(all: seq<bool>, code: seq<bool>, v: nat, extra: nat)
    requires all == code + BitsOf(v, extra)
    ensures extra == 0 ==> all == code
    ensures forall w: seq<bool> :: w + all == w + code + BitsOf(v, extra)
  {
    forall w: seq<bool> ensures w + all == w + code + BitsOf(v, extra) {}
  }

  /** The last table entry that is not above the length, and its extra bits. */
  method FindLength(best: nat) returns (j: nat, base: nat, extra: nat)
    requires 3 <= best <= 258
    ensures j == LengthIndex(best, 0) && base == LengthBase(j) && extra == LengthExtra(j)
    ensures base <= best && best - base < Pow2(extra)
  {
    hide LengthBase, LengthExtra, Pow2;
    LengthTablesAgree();
    j := 0;
    while best > LENGTHC[j + 1] - 1
      invariant j <= 28 && LengthIndex(best, j) == LengthIndex(best, 0)
      decreases 28 - j
    {
      j := j + 1;
    }
    LengthIndexFits(best);
    base, extra := LENGTHC[j], LENGTHEB[j];
  }

  method FindDistance(d: nat) returns (j: nat, base: nat, extra: nat)
    requires 1 <= d <= 32767
    ensures j == DistIndex(d, 0) && base == DistBase(j) && extra == DistExtra(j)
    ensures base <= d && d - base < Pow2(extra)
  {
    hide DistBase, DistExtra, Pow2;
    DistTablesAgree();
    j := 0;
    while d > DISTC[j + 1] - 1
      invariant j <= 29 && DistIndex(d, j) == DistIndex(d, 0)
      decreases 29 - j
    {
      j := j + 1;
    }
    DistIndexFits(d);
    base, extra := DISTC[j], DISTEB[j];
  }

  method Bitrev(code: nat, codebits: nat) returns (res: nat)
    ensures res < Pow2(codebits) && BitsOf(res, codebits) == Reversed(BitsOf(code, codebits))
  {
    res := 0;
    var c := code;
    for k := 0 to codebits
      invariant c == ShiftRight(code, k) && res == Value(Reversed(BitsOf(code, k)))
    {
      BitrevStep(code, k);
      res := Or(ShiftLeft(res, 1), c % 2);
      c := c / 2;
    }
    BitsOfValue(Reversed(BitsOf(code, codebits)));
  }

  /** The next bit goes below the ones already reversed. */
  lemma {:induction false} BitrevStep(code: nat, k: nat)
    ensures ShiftRight(code, k + 1) == ShiftRight(code, k) / 2
    ensures Or(ShiftLeft(Value(Reversed(BitsOf(code, k))), 1), ShiftRight(code, k) % 2)
         == Value(Reversed(BitsOf(code, k + 1)))
  {
    var r, bit := Value(Reversed(BitsOf(code, k))), ShiftRight(code, k) % 2;
    ShiftOneMore(code, k);
    ShiftRightBits(code, k, 1);
    assert BitsOf(code, k + 1)[k..] == [bit == 1];
    BitsOfPrefix(code, k, 1);
    assert BitsOf(code, k + 1) == BitsOf(code, k) + [bit == 1];
    ReversedConcat(BitsOf(code, k), [bit == 1]);
    assert Reversed([bit == 1]) == [bit == 1];
    assert ([bit == 1] + Reversed(BitsOf(code, k)))[1..] == Reversed(BitsOf(code, k));
    assert ShiftLeft(r, 1) == 2 * r;
    OrBit0(r, bit);
  }

  lemma {:induction false} ShiftOneMore(code: nat, k: nat)
    ensures ShiftRight(code, k + 1) == ShiftRight(code, k) / 2
  {
    if k > 0 { ShiftOneMore(code / 2, k - 1); }
  }

  lemma {:induction false} OrBit0(r: nat, bit: nat)
    requires bit <= 1
    ensures Or(2 * r, bit) == 2 * r + bit
  {
    if r > 0 && bit == 1 { assert Or(2 * r, 1) == 1 + 2 * Or(r, 0); }
  }

  /** The encoder's tables are those of the standard, with one entry more to stop the search. */
  lemma {:induction false} LengthTablesAgree()
    ensures forall j :: 0 <= j < 29 ==> LENGTHC[j] == LengthBase(j) && LENGTHEB[j] == LengthExtra(j)
    ensures LENGTHC[29] == 259
  {
    forall j: nat | j < 29 ensures LENGTHC[j] == LengthBase(j) && LENGTHEB[j] == LengthExtra(j) { LengthTable(j); }
  }

  lemma {:induction false} LengthTableFirst(j: nat)
    requires j < 8
    ensures LENGTHC[j] == LengthBase(j) && LENGTHEB[j] == LengthExtra(j)
  {
  }

  lemma {:induction false} LengthTableSecond(j: nat)
    requires 8 <= j < 16
    ensures LENGTHC[j] == LengthBase(j) && LENGTHEB[j] == LengthExtra(j)
  {
    PowerAt(j / 4 - 1);
  }

  lemma {:induction false} LengthTableThird(j: nat)
    requires 16 <= j < 24
    ensures LENGTHC[j] == LengthBase(j) && LENGTHEB[j] == LengthExtra(j)
  {
    PowerAt(j / 4 - 1);
  }

  lemma {:induction false} LengthTableLast(j: nat)
    requires 24 <= j < 29
    ensures LENGTHC[j] == LengthBase(j) && LENGTHEB[j] == LengthExtra(j)
  {
    if j < 28 { PowerAt(j / 4 - 1); }
  }

  lemma {:induction false} LengthTable(j: nat)
    requires j < 29
    ensures LENGTHC[j] == LengthBase(j) && LENGTHEB[j] == LengthExtra(j)
  {
    hide LengthBase, LengthExtra;
    if j < 8 { LengthTableFirst(j); } else if j < 16 { LengthTableSecond(j); } else if j < 24 { LengthTableThird(j); } else { LengthTableLast(j); }
  }

  lemma {:induction false} DistTablesAgree()
    ensures forall j :: 0 <= j < 30 ==> DISTC[j] == DistBase(j) && DISTEB[j] == DistExtra(j)
    ensures DISTC[30] == 32768
  {
    forall j: nat | j < 30 ensures DISTC[j] == DistBase(j) && DISTEB[j] == DistExtra(j) {
      DistTable(j);
      ExtraTable(j);
    }
  }

  lemma {:induction false} DistTable(j: nat)
    requires j < 30
    ensures DISTC[j] == DistBase(j)
  {
    hide Pow2;
    var e := j / 2;
    if j >= 4 {
      DistPair(e);
      assert j == 2 * e || j == 2 * e + 1;
    }
  }

  lemma {:induction false} DistPair(e: nat)
    requires 2 <= e < 15
    ensures DISTC[2 * e] == 1 + 2 * Pow2(e - 1) && DISTC[2 * e + 1] == 1 + 3 * Pow2(e - 1)
  {
    hide Pow2;
    PowerAt(e - 1);
  }

  lemma {:induction false} ExtraTable(j: nat)
    requires j < 30
    ensures DISTEB[j] == DistExtra(j)
  {
  }

  lemma {:induction false} MoveByte(out: seq<byte>, buf: nat, n: nat)
    requires n >= 8 && buf < Pow2(n)
    ensures ShiftRight(buf, 8) < Pow2(n - 8)
    ensures BitsOfBytes(out + [buf % 256]) + BitsOf(ShiftRight(buf, 8), n - 8) == BitsOfBytes(out) + BitsOf(buf, n)
  {
    hide BitsOfBytes, BitsOf, ShiftRight, Pow2;
    var c: byte := buf % 256;
    LowByte(buf, n);
    BitsOfBytesConcat(out, [c]);
    OneByte(c);
  }

  lemma {:induction false} LowByte(buf: nat, n: nat)
    requires n >= 8 && buf < Pow2(n)
    ensures ShiftRight(buf, 8) < Pow2(n - 8)
    ensures BitsOf(buf, n) == BitsOf(buf % 256, 8) + BitsOf(ShiftRight(buf, 8), n - 8)
  {
    hide BitsOf, ShiftRight, Pow2;
    Pow2Values();
    ShiftRightBound(buf, 8, n - 8);
    ShiftRightBits(buf, 8, n - 8);
    BitsOfPrefix(buf, 8, n - 8);
    Divide(buf, 256);
    BitsOfLow(buf % 256, buf / 256, 8);
  }

  lemma {:induction false} OneByte(c: byte)
    ensures BitsOfBytes([c]) == BitsOf(c, 8)
  {
    hide BitsOf;
    assert [c][1..] == [];
  }

  lemma {:induction false} NoOverflow(m: nat)
    requires m <= 20
    ensures Pow2(m) <= 0x10_0000
  {
    Pow2Monotone(m, 20);
    Pow2Add(16, 4);
    Pow2Values();
  }
}
