/** Decoding one block of 64 JPEG coefficients. */
module JpegBlock {
  import opened Arithmetic
  import opened Bits
  import opened Canonical
  import opened JpegBits
  import opened JpegReader
  import opened JpegTables
  import opened Options

  function Pick(i: nat, a: nat, b: nat, c: nat, d: nat, e: nat, f: nat, g: nat, h: nat): nat {
    if i < 4 then (if i == 0 then a else if i == 1 then b else if i == 2 then c else d)
    else (if i == 4 then e else if i == 5 then f else if i == 6 then g else h)
  }

  /** Where each coefficient of the zigzag order belongs in the 8 by 8 block; corrupt input may run past the end. */
  function Dezigzag(k: nat): nat {
    if k < 8 then Pick(k, 0, 1, 8, 16, 9, 2, 3, 10)
    else if k < 16 then Pick(k - 8, 17, 24, 32, 25, 18, 11, 4, 5)
    else if k < 24 then Pick(k - 16, 12, 19, 26, 33, 40, 48, 41, 34)
    else if k < 32 then Pick(k - 24, 27, 20, 13, 6, 7, 14, 21, 28)
    else if k < 40 then Pick(k - 32, 35, 42, 49, 56, 57, 50, 43, 36)
    else if k < 48 then Pick(k - 40, 29, 22, 15, 23, 30, 37, 44, 51)
    else if k < 56 then Pick(k - 48, 58, 59, 52, 45, 38, 31, 39, 46)
    else if k < 64 then Pick(k - 56, 53, 60, 61, 54, 47, 55, 62, 63)
    else 63
  }

  /** The writer's table: where each coefficient of the block comes in the zigzag order. */
  function Zigzag(k: nat): nat {
    if k < 8 then Pick(k, 0, 1, 5, 6, 14, 15, 27, 28)
    else if k < 16 then Pick(k - 8, 2, 4, 7, 13, 16, 26, 29, 42)
    else if k < 24 then Pick(k - 16, 3, 8, 12, 17, 25, 30, 41, 43)
    else if k < 32 then Pick(k - 24, 9, 11, 18, 24, 31, 40, 44, 53)
    else if k < 40 then Pick(k - 32, 10, 19, 23, 32, 39, 45, 52, 54)
    else if k < 48 then Pick(k - 40, 20, 22, 33, 38, 46, 51, 55, 60)
    else if k < 56 then Pick(k - 48, 21, 34, 37, 47, 50, 56, 59, 61)
    else if k < 64 then Pick(k - 56, 35, 36, 48, 49, 57, 58, 62, 63)
    else 63
  }

  /** The two tables are inverse to each other, so each is a permutation. */
  lemma {:induction false} ZigzagsInverse(k: nat)
    requires k < 64
    ensures Dezigzag(k) < 64 && Zigzag(Dezigzag(k)) == k && Zigzag(k) < 64 && Dezigzag(Zigzag(k)) == k
  {
    if k < 32 { LowHalf(k); } else { HighHalf(k); }
  }

  lemma {:induction false} LowHalf(k: nat)
    requires k < 32
    ensures Dezigzag(k) < 64 && Zigzag(Dezigzag(k)) == k && Zigzag(k) < 64 && Dezigzag(Zigzag(k)) == k
  {
  }

  lemma {:induction false} HighHalf(k: nat)
    requires 32 <= k < 64
    ensures Dezigzag(k) < 64 && Zigzag(Dezigzag(k)) == k && Zigzag(k) < 64 && Dezigzag(Zigzag(k)) == k
  {
  }

  /** How many places lie on the diagonals above the one of `row` plus `column` being `d`. */
  function DiagonalStart(d: nat): int { if d <= 8 then d * (d + 1) / 2 else 64 - (15 - d) * (16 - d) / 2 }

  /** The order goes along the diagonals, down the odd ones and up the even ones. */
  predicate OnDiagonal(row: nat, column: nat) {
    var d := row + column;
    Zigzag(8 * row + column) + (if d > 7 then d - 7 else 0) == DiagonalStart(d) + if d % 2 == 1 then row else column
  }

  lemma {:induction false} ZigzagOrder(row: nat, column: nat)
    requires row < 8 && column < 8
    ensures OnDiagonal(row, column)
  {
    if row < 2 { RowsFromZero(row, column); } else if row < 4 { RowsFromTwo(row, column); }
    else if row < 6 { RowsFromFour(row, column); } else { RowsFromSix(row, column); }
  }

  lemma {:induction false} RowsFromZero(row: nat, column: nat)
    requires row < 2 && column < 8
    ensures OnDiagonal(row, column)
  {
    if row == 0 {
      match column { case 0 => case 1 => case 2 => case 3 => case 4 => case 5 => case 6 => case _ => }
    } else {
      match column { case 0 => case 1 => case 2 => case 3 => case 4 => case 5 => case 6 => case _ => }
    }
  }

  lemma {:induction false} RowsFromTwo(row: nat, column: nat)
    requires 2 <= row < 4 && column < 8
    ensures OnDiagonal(row, column)
  {
    if row == 2 {
      match column { case 0 => case 1 => case 2 => case 3 => case 4 => case 5 => case 6 => case _ => }
    } else {
      match column { case 0 => case 1 => case 2 => case 3 => case 4 => case 5 => case 6 => case _ => }
    }
  }

  lemma {:induction false} RowsFromFour(row: nat, column: nat)
    requires 4 <= row < 6 && column < 8
    ensures OnDiagonal(row, column)
  {
    if row == 4 {
      match column { case 0 => case 1 => case 2 => case 3 => case 4 => case 5 => case 6 => case _ => }
    } else {
      match column { case 0 => case 1 => case 2 => case 3 => case 4 => case 5 => case 6 => case _ => }
    }
  }

  lemma {:induction false} RowsFromSix(row: nat, column: nat)
    requires 6 <= row < 8 && column < 8
    ensures OnDiagonal(row, column)
  {
    if row == 6 {
      match column { case 0 => case 1 => case 2 => case 3 => case 4 => case 5 => case 6 => case _ => }
    } else {
      match column { case 0 => case 1 => case 2 => case 3 => case 4 => case 5 => case 6 => case _ => }
    }
  }

  /** The C cast to a 16-bit integer. */
  function Short(x: int): (r: int)
    ensures -32768 <= r < 32768 && (-32768 <= x < 32768 ==> r == x)
  {
    (x + 32768) % 65536 - 32768
  }

  /** C's division, which rounds toward zero. */
  function Quotient(x: int, y: int): int
    requires y != 0
  {
    if x >= 0 then (if y > 0 then x / y else -(x / -y)) else if y > 0 then -(-x / y) else -x / -y
  }

  /** The guard on the DC product. */
  predicate Mul2ShortsValid(a: int, b: int) {
    if b == 0 || b == -1 then true
    else if (a >= 0) == (b >= 0) then a <= Quotient(32767, b)
    else if b < 0 then a <= Quotient(-32768, b)
    else a >= Quotient(-32768, b)
  }

  predicate IsShort(x: int) { -32768 <= x <= 32767 }

  /** The guard says whether the product fits 16 bits, unless a factor of minus one passes an `a` beyond them
      or both factors are negative: then its test is the wrong way round, and right only at the bound. */
  lemma {:induction false} ProductFits(a: int, b: int)
    ensures (Mul2ShortsValid(a, b) <==> IsShort(a * b))
        <==> b >= 0 || (b == -1 && -32767 <= a <= 32768) || (b < -1 && (a >= 0 || -a == 32767 / -b))
  {
    if b > 0 {
      if a >= 0 { AtMostIff(a, b, 32767); } else { AtMostIff(-a, b, 32768); assert a * b == -((-a) * b); }
    } else if b < -1 {
      if a >= 0 {
        AtMostIff(a, -b, 32768);
        assert a * b == -(a * -b);
      } else {
        AtMostIff(-a, -b, 32767);
        assert a * b == (-a) * (-b);
        BoundReached(-a, -b, 32767);
      }
    }
  }

  /** Two negative factors: one product that fits is refused, one that does not is let through. */
  lemma {:induction false} NegativeFactorsMisjudged()
    ensures !Mul2ShortsValid(-1, -2) && IsShort(-1 * -2)
    ensures Mul2ShortsValid(-20000, -2) && !IsShort(-20000 * -2)
  {
    ProductFits(-1, -2);
    ProductFits(-20000, -2);
  }

  lemma {:induction false} AtMostIff(a: nat, b: nat, m: nat)
    requires b > 0
    ensures a * b <= m <==> a <= m / b
    ensures a * b >= 0
  {
    var q := m / b;
    Divide(m, b);
    Commute(b, q);
    if a <= q { Scale(a, q, b); } else { Scale(q + 1, a, b); Distribute(q, 1, b); }
  }

  /** Being at least and being at most the bound agree only at the bound. */
  lemma {:induction false} BoundReached(a: nat, b: nat, m: nat)
    requires b > 0
    ensures (a >= m / b <==> a <= m / b) <==> a == m / b
  {
  }

  predicate AddIntsValid(a: int, b: int) { -0x8000_0000 <= a + b <= 0x7FFF_FFFF }

  // ---- The reference decoder ----

  /** The codes and multipliers a block is decoded with. */
  datatype Coding = Coding(dcLens: seq<nat>, dcValues: seq<byte>, acLens: seq<nat>, acValues: seq<byte>, dequant: seq<nat>) {
    ghost predicate Valid() {
      && |dequant| == 64 && |dcLens| <= |dcValues| && |acLens| <= |acValues|
      && Accepted(dcLens) && Accepted(acLens)
    }
  }

  datatype Block = Block(data: seq<int>, at: nat, pred: int) | Corrupt

  /** A coefficient after a run of zeros, sixteen zeros, or the end of the block. */
  datatype AcToken = Coefficient(run: nat, v: int) | SixteenZeros | EndOfBlock

  datatype Reading = Read(token: AcToken, at: nat) | NoToken

  ghost function ReadAc(raw: seq<byte>, at: nat, lens: seq<nat>, values: seq<byte>): (r: Reading)
    requires |lens| <= |values|
    ensures r.Read? ==> r.at > at
  {
    match Symbol(lens, raw, at)
    case None => NoToken
    case Some(i) => AcOf(raw, values[i], at + lens[i])
  }

  /** What an AC symbol and the bits after it stand for. */
  function AcOf(raw: seq<byte>, rs: byte, next: nat): (r: Reading)
    ensures r.Read? && r.at >= next && (r.token.Coefficient? ==> r.token.run <= 15)
  {
    var s, run := rs % 16, rs / 16;
    if s > 0 then Read(Coefficient(run, Extend(ValueMsb(Peek(raw, next, s)), s)), next + s)
    else if rs == 0xf0 then Read(SixteenZeros, next)
    else Read(EndOfBlock, next)
  }

  /** The AC coefficients from zigzag position `k` on. */
  ghost function Coefficients(raw: seq<byte>, at: nat, k: nat, data: seq<int>, pred: int, c: Coding): Block
    requires c.Valid() && |data| == 64
    decreases 64 - k
  {
    if k >= 64 then Block(data, at, pred)
    else
      match ReadAc(raw, at, c.acLens, c.acValues)
      case NoToken => Corrupt
      case Read(EndOfBlock, next) => Block(data, next, pred)
      case Read(SixteenZeros, next) => Coefficients(raw, next, k + 16, data, pred, c)
      case Read(Coefficient(run, v), next) =>
        Coefficients(raw, next, k + run + 1, Placed(data, k + run, v, c), pred, c)
  }

  /** A coefficient put in its place. */
  function Placed(data: seq<int>, k: nat, v: int, c: Coding): (r: seq<int>)
    requires |data| == 64 && |c.dequant| == 64
    ensures |r| == 64
  {
    ZigzagInRange(k);
    data[Dezigzag(k) := Short(v * c.dequant[Dezigzag(k)])]
  }

  lemma {:induction false} ZigzagInRange(k: nat)
    ensures Dezigzag(k) < 64
  {
    if k < 64 { ZigzagsInverse(k); }
  }

  function Blank(dc: int): (r: seq<int>)
    ensures |r| == 64
  {
    seq(64, i => if i == 0 then dc else 0)
  }

  datatype DcReading = DcRead(diff: int, at: nat) | NoDc

  ghost function ReadDc(raw: seq<byte>, at: nat, lens: seq<nat>, values: seq<byte>): DcReading
    requires |lens| <= |values|
  {
    match Symbol(lens, raw, at)
    case None => NoDc
    case Some(i) =>
      var t, next := values[i], at + lens[i];
      if t > 15 then NoDc
      else if t == 0 then DcRead(0, next)
      else DcRead(Extend(ValueMsb(Peek(raw, next, t)), t), next + t)
  }

  /** A whole block: the DC difference, then the AC coefficients. */
  ghost function Decoded(raw: seq<byte>, at: nat, pred: int, c: Coding): Block
    requires c.Valid()
  {
    match ReadDc(raw, at, c.dcLens, c.dcValues)
    case NoDc => Corrupt
    case DcRead(diff, next) =>
      if !AddIntsValid(pred, diff) || !Mul2ShortsValid(pred + diff, c.dequant[0]) then Corrupt
      else Coefficients(raw, next, 1, Blank(Short((pred + diff) * c.dequant[0])), pred + diff, c)
  }

  /** The DC difference is in the data, and cannot be added or multiplied. */
  ghost predicate RefusedDc(raw: seq<byte>, at: nat, pred: int, c: Coding)
    requires c.Valid()
  {
    match ReadDc(raw, at, c.dcLens, c.dcValues)
    case NoDc => false
    case DcRead(diff, next) =>
      next <= 8 * |raw| && (!AddIntsValid(pred, diff) || !Mul2ShortsValid(pred + diff, c.dequant[0]))
  }

  lemma {:induction false} CoefficientsAdvance(raw: seq<byte>, at: nat, k: nat, data: seq<int>, pred: int, c: Coding)
    requires c.Valid() && |data| == 64
    ensures var b := Coefficients(raw, at, k, data, pred, c); b.Block? ==> b.at >= at
    decreases 64 - k
  {
    hide ReadAc, Placed;
    if k < 64 {
      match ReadAc(raw, at, c.acLens, c.acValues)
      case NoToken =>
      case Read(EndOfBlock, next) =>
      case Read(SixteenZeros, next) => CoefficientsAdvance(raw, next, k + 16, data, pred, c);
      case Read(Coefficient(run, v), next) =>
        CoefficientsAdvance(raw, next, k + run + 1, Placed(data, k + run, v, c), pred, c);
    }
  }

  /** A run that leaves the block puts its coefficient in the last place, over what is there, and ends the block. */
  lemma {:induction false} RunPastEnd(raw: seq<byte>, at: nat, k: nat, data: seq<int>, pred: int, c: Coding, run: nat, v: int, next: nat)
    requires c.Valid() && |data| == 64 && k < 64 <= k + run && ReadAc(raw, at, c.acLens, c.acValues) == Read(Coefficient(run, v), next)
    ensures Coefficients(raw, at, k, data, pred, c) == Block(data[63 := Short(v * c.dequant[63])], next, pred)
  {
    hide ReadAc, Short;
  }

  /** Every symbol of size zero ends the block, except the one of run fifteen, which skips sixteen places. */
  lemma {:induction false} ZeroSize(raw: seq<byte>, at: nat, k: nat, data: seq<int>, pred: int, c: Coding, i: nat)
    requires c.Valid() && |data| == 64 && k < 64 && Symbol(c.acLens, raw, at) == Some(i) && i < |c.acLens| && c.acValues[i] % 16 == 0
    ensures var next := at + c.acLens[i];
      Coefficients(raw, at, k, data, pred, c)
      == if c.acValues[i] / 16 == 15 && k < 48 then Coefficients(raw, next, k + 16, data, pred, c) else Block(data, next, pred)
  {
    hide Symbol, Placed;
  }

  // ---- The fast AC table ----

  function Times(a: nat, b: nat): nat { a * b }

  function Over(a: nat, b: nat): nat
    requires b > 0
  {
    a / b
  }

  /** The magnitude bits after the code in the nine bits `c`. */
  function FastMagnitude(c: nat, len: nat, mag: nat): nat
    requires len + mag <= FAST_BITS
  {
    Over(Times(c, Pow2(len)) % FAST_SIZE, Pow2(FAST_BITS - mag))
  }

  function FastValue(c: nat, len: nat, mag: nat): int
    requires 0 < mag && len + mag <= FAST_BITS
  {
    Extend(FastMagnitude(c, len, mag), mag)
  }

  /** Entry `e` packs the value, run and total length of the coefficient in the nine bits `c`. */
  predicate Packs(lens: seq<nat>, values: seq<byte>, e: int, c: nat, i: nat) {
    && i < |lens| <= |values| && FitsFast(lens, i, c) && values[i] % 16 > 0 && lens[i] + values[i] % 16 <= FAST_BITS
    && e == FastValue(c, lens[i], values[i] % 16) * 256 + values[i] / 16 * 16 + lens[i] + values[i] % 16
  }

  ghost predicate FastAcEntry(lens: seq<nat>, values: seq<byte>, e: int, c: nat) {
    e != 0 ==> exists i: nat :: Packs(lens, values, e, c, i)
  }

  ghost predicate FastAcFor(fac: array<int>, lens: seq<nat>, values: seq<byte>)
    reads fac
  {
    fac.Length == FAST_SIZE && forall c :: 0 <= c < FAST_SIZE ==> FastAcEntry(lens, values, fac[c], c)
  }

  /** For nine bits that hold a whole coefficient, its run, value and length, packed. */
  method BuildFastAc(fac: array<int>, h: Huffman, ghost lens: seq<nat>)
    requires h.TablesFor(lens) && fac.Length == FAST_SIZE && fac != h.delta
    modifies fac
    ensures FastAcFor(fac, lens, h.values[..])
  {
    hide Huffman.TablesFor;
    BeforeFast(h, lens);
    var values := h.values[..];
    for c := 0 to FAST_SIZE
      invariant h.TablesFor(lens) && h.values[..] == values
      invariant forall x :: 0 <= x < c ==> FastAcEntry(lens, values, fac[x], x)
    {
      var k, len := h.FastSymbol(c, lens);
      var e := 0;
      if k < 255 {
        e := PackEntry(c, k, len, values, lens);
      }
      fac[c] := e;
    }
  }

  lemma {:induction false} BeforeFast(h: Huffman, lens: seq<nat>)
    requires h.TablesFor(lens)
    ensures h.values.Length == 256 && |lens| <= 256 && Sorted(lens)
  {
  }

  method PackEntry(c: nat, k: nat, len: nat, values: seq<byte>, ghost lens: seq<nat>) returns (e: int)
    requires |values| == 256 && |lens| <= 256 && k < 255 && FastEntry(lens, |lens|, k, c) && (k < |lens| ==> len == lens[k])
    ensures FastAcEntry(lens, values, e, c)
  {
    e := 0;
    var rs := values[k];
    var run, magbits := rs / 16, rs % 16;
    if magbits != 0 && len + magbits <= FAST_BITS {
      var v: int := FastMagnitude(c, len, magbits);
      var m := Pow2(magbits - 1);
      if v < m { v := v - Pow2(magbits) + 1; }
      if -128 <= v <= 127 {
        e := v * 256 + run * 16 + len + magbits;
        assert Packs(lens, values, e, c, k);
      }
    }
  }

  /** The packed fields come apart again. */
  lemma {:induction false} Unpack(v: int, run: nat, total: nat)
    requires run < 16 && 0 < total < 16
    ensures var e := v * 256 + run * 16 + total; e % 16 == total && (e / 16) % 16 == run && e / 256 == v
  {
  }

  /** The value in a fast entry is that of the bits after the code. */
  lemma {:induction false} FastValueIs(raw: seq<byte>, at: nat, len: nat, mag: nat)
    requires 0 < mag && len + mag <= FAST_BITS
    ensures FastValue(ValueMsb(Peek(raw, at, FAST_BITS)), len, mag) == Extend(ValueMsb(Peek(raw, at + len, mag)), mag)
  {
    hide Peek, ValueMsb, Extend, Pow2;
    var rest := FAST_BITS - len - mag;
    PeekConcat(raw, at, len, mag + rest);
    PeekConcat(raw, at + len, mag, rest);
    ValueMsbConcat(Peek(raw, at, len), Peek(raw, at + len, mag + rest));
    ValueMsbConcat(Peek(raw, at + len, mag), Peek(raw, at + len + mag, rest));
    Pow2Add(len, mag + rest);
    Pow2Add(rest, len);
    Pow2Add(mag, rest + len);
    Pow2Add(mag, rest);
    Pow2Values();
    MiddleBits(ValueMsb(Peek(raw, at, len)), ValueMsb(Peek(raw, at + len, mag)), ValueMsb(Peek(raw, at + len + mag, rest)),
               Pow2(len), Pow2(mag), Pow2(rest));
  }

  /** The middle of three bit fields. */
  lemma {:induction false} MiddleBits(a: nat, b: nat, d: nat, p: nat, q: nat, r: nat)
    requires b < q && d < r && p > 0
    ensures q * (r * p) > 0 && r * p > 0
    ensures (((a * (q * r) + (b * r + d)) * p) % (q * (r * p))) / (r * p) == b
  {
    var t := b * r + d;
    AtLeast(r, p);
    AtLeast(q, r * p);
    Below(b, q, r);
    assert t < q * r by { Distribute(b, 1, r); Scale(b + 1, q, r); }
    assert (a * (q * r) + t) * p == a * (q * (r * p)) + t * p by {
      Distribute(a * (q * r), t, p);
      Assoc(a, q * r, p);
      Assoc(q, r, p);
    }
    assert t * p < q * (r * p) by { Below(t, q * r, p); Assoc(q, r, p); }
    Remainder((a * (q * r) + t) * p, a, t * p, q * (r * p));
    assert t * p == b * (r * p) + d * p by { Distribute(b * r, d, p); Assoc(b, r, p); }
    Below(d, r, p);
    Remainder(t * p, b, d * p, r * p);
  }

  // ---- Decoding ----

  /** A coefficient that is not there, or ends past the data. */
  ghost predicate Late(raw: seq<byte>, r: Reading) { r.Read? ==> r.at > 8 * |raw| }

  /** A block cut short: if the reference reads it at all, it reads past the end of the data. */
  ghost predicate Cut(raw: seq<byte>, b: Block) { b.Block? ==> b.at > 8 * |raw| }

  lemma {:induction false} FastTokenIs(lens: seq<nat>, values: seq<byte>, e: int, raw: seq<byte>, at: nat)
    requires Accepted(lens) && Sorted(lens) && |lens| <= 256 && |lens| <= |values| && e != 0
    requires FastAcEntry(lens, values, e, ValueMsb(Peek(raw, at, FAST_BITS)))
    ensures 0 < e % 16 <= FAST_BITS
    ensures ReadAc(raw, at, lens, values) == Read(Coefficient((e / 16) % 16, e / 256), at + e % 16)
  {
    hide Accepted, FastValue, Peek, ValueMsb, Comes;
    var c := ValueMsb(Peek(raw, at, FAST_BITS));
    var i: nat :| Packs(lens, values, e, c, i);
    FitsIsNext(lens, i, raw, at);
    FastValueIs(raw, at, lens[i], values[i] % 16);
    Unpack(FastValue(c, lens[i], values[i] % 16), values[i] / 16, lens[i] + values[i] % 16);
  }

  lemma {:induction false} FitsIsNext(lens: seq<nat>, i: nat, raw: seq<byte>, at: nat)
    requires Accepted(lens) && FitsFast(lens, i, ValueMsb(Peek(raw, at, FAST_BITS)))
    ensures Symbol(lens, raw, at) == Some(i)
  {
    var w := Peek(raw, at, LONGEST);
    PeekConcat(raw, at, FAST_BITS, LONGEST - FAST_BITS);
    assert w[..FAST_BITS] == Peek(raw, at, FAST_BITS);
    PrefixIsQuotient(w, FAST_BITS);
    Pow2Values();
    FitsIffMatches(lens, i, ValueMsb(w));
    PrefixIffMatches(lens, i, w);
    SymbolIs(lens, raw, at, i);
  }

  /** One AC coefficient, run of sixteen zeros, or end of block, by the fast table if it has the value. */
  method ReceiveAc(rd: Reader, h: Huffman, fac: array<int>, ghost lens: seq<nat>)
    returns (ok: bool, t: AcToken, ghost ranOut: bool)
    requires rd.Valid() && h.TablesFor(lens) && FastAcFor(fac, lens, h.values[..])
    modifies rd
    ensures rd.Valid() && (t.Coefficient? ==> t.run <= 15)
    ensures |lens| <= h.values.Length
    ensures ok && !ranOut ==> ReadAc(rd.raw, old(rd.at), lens, h.values[..]) == Read(t, rd.at)
    ensures !ok || ranOut ==> Late(rd.raw, ReadAc(rd.raw, old(rd.at), lens, h.values[..]))
  {
    hide Reader.Valid, Reader.Top, Huffman.TablesFor, ReadAc, Accepted, Sorted, FastAcEntry, Peek, ValueMsb, Late;
    BeforeFast(h, lens);
    rd.BeforeDecoding(h, lens);
    rd.ShortBuffer();
    rd.TopIs(FAST_BITS);
    rd.SmallIndex();
    t, ranOut := EndOfBlock, false;
    var r := FastLookup(fac, rd.Top(FAST_BITS), lens, h.values[..]);
    if r != 0 {
      ok, t := TakeFast(rd, r, lens, h.values[..]);
      return;
    }
    ok, t, ranOut := ReceiveSlow(rd, h, lens);
  }

  /** The coefficient a fast entry holds, unless its bits run past the data. */
  method TakeFast(rd: Reader, e: int, ghost lens: seq<nat>, ghost values: seq<byte>) returns (ok: bool, t: AcToken)
    requires rd.Valid() && (rd.codeBits >= 16 || rd.loaded >= |rd.raw|) && e != 0
    requires Accepted(lens) && Sorted(lens) && |lens| <= 256 && |lens| <= |values|
    requires FastAcEntry(lens, values, e, ValueMsb(Peek(rd.raw, rd.at, FAST_BITS)))
    modifies rd`codeBuffer, rd`codeBits, rd`at
    ensures rd.Valid() && (t.Coefficient? ==> t.run <= 15)
    ensures ok ==> ReadAc(rd.raw, old(rd.at), lens, values) == Read(t, rd.at)
    ensures !ok ==> Late(rd.raw, ReadAc(rd.raw, old(rd.at), lens, values))
  {
    hide Reader.Valid, ReadAc, Accepted, Sorted, FastAcEntry, Peek, ValueMsb;
    FastTokenIs(lens, values, e, rd.raw, rd.at);
    t := EndOfBlock;
    var s := e % 16;
    if s > rd.codeBits {
      rd.OutOfBits(s);
      return false, t;
    }
    rd.Drop(s);
    return true, Coefficient((e / 16) % 16, e / 256);
  }

  method FastLookup(fac: array<int>, c: nat, ghost lens: seq<nat>, ghost values: seq<byte>) returns (r: int)
    requires FastAcFor(fac, lens, values) && c < FAST_SIZE
    ensures FastAcEntry(lens, values, r, c)
  {
    r := fac[c];
  }

  method ReceiveSlow(rd: Reader, h: Huffman, ghost lens: seq<nat>) returns (ok: bool, t: AcToken, ghost ranOut: bool)
    requires rd.Valid() && h.TablesFor(lens) && |lens| <= h.values.Length
    modifies rd
    ensures rd.Valid() && (t.Coefficient? ==> t.run <= 15)
    ensures ok && !ranOut ==> ReadAc(rd.raw, old(rd.at), lens, h.values[..]) == Read(t, rd.at)
    ensures !ok || ranOut ==> Late(rd.raw, ReadAc(rd.raw, old(rd.at), lens, h.values[..]))
  {
    hide Reader.Valid, Huffman.TablesFor, Extend, Peek, ValueMsb;
    t, ranOut := EndOfBlock, false;
    var rs := rd.HuffDecode(h, lens);
    if rs < 0 {
      return false, t, false;
    }
    ghost var next := rd.at;
    var s, r := rs % 16, rs / 16;
    if s == 0 {
      if rs == 0xf0 { t := SixteenZeros; }
      return true, t, false;
    }
    var v := rd.ExtendReceive(s);
    ranOut := rd.at == next;
    return true, Coefficient(r, v), ranOut;
  }

  /** The decoder's tables for one component. */
  class Tables {
    const hdc: Huffman
    const hac: Huffman
    const fac: array<int>
    const dequant: seq<nat>

    constructor (dc: Huffman, ac: Huffman, fast: array<int>, multipliers: seq<nat>)
      ensures hdc == dc && hac == ac && fac == fast && dequant == multipliers
    {
      hdc, hac, fac, dequant := dc, ac, fast, multipliers;
    }

    /** The tables decode with this coding. */
    ghost predicate For(c: Coding)
      reads hdc.fast, hdc.size, hdc.maxcode, hdc.delta, hdc.values
      reads hac.fast, hac.size, hac.maxcode, hac.delta, hac.values, fac
    {
      && c.Valid() && hdc.TablesFor(c.dcLens) && hac.TablesFor(c.acLens) && FastAcFor(fac, c.acLens, hac.values[..])
      && c.dcValues == hdc.values[..] && c.acValues == hac.values[..] && c.dequant == dequant
    }

    lemma {:induction false} Parts(c: Coding)
      requires For(c)
      ensures c.Valid() && hdc.TablesFor(c.dcLens) && hac.TablesFor(c.acLens) && FastAcFor(fac, c.acLens, hac.values[..])
      ensures c.dcValues == hdc.values[..] && c.acValues == hac.values[..] && c.dequant == dequant && |dequant| == 64
      ensures |c.dcLens| <= |c.dcValues| && |c.acLens| <= |c.acValues|
    {
    }

    /** Decodes into the location that undoes the zigzag. */
    method PlaceCoefficient(data: array<int>, k: nat, v: int, ghost c: Coding)
      requires data.Length == 64 && |dequant| == 64 && c.dequant == dequant
      modifies data
      ensures data[..] == Placed(old(data[..]), k, v, c)
    {
      hide Dezigzag, Short;
      ZigzagInRange(k);
      var zig := Dezigzag(k);
      data[zig] := Short(v * dequant[zig]);
    }

    /** The AC coefficients of a block. */
    method DecodeAcs(rd: Reader, data: array<int>, ghost pred: int, ghost c: Coding) returns (ok: bool, ghost ranOut: bool)
      requires rd.Valid() && For(c) && data.Length == 64 && data != fac && data != hdc.delta && data != hac.delta
      modifies rd, data
      ensures rd.Valid() && For(c)
      ensures ok && !ranOut ==>
        Coefficients(rd.raw, old(rd.at), 1, old(data[..]), pred, c) == Block(data[..], rd.at, pred)
      ensures !ok || ranOut ==> Cut(rd.raw, Coefficients(rd.raw, old(rd.at), 1, old(data[..]), pred, c))
    {
      hide Reader.Valid, For, Coding.Valid, Placed, ReadAc;
      Parts(c);
      ghost var whole := Coefficients(rd.raw, rd.at, 1, data[..], pred, c);
      ranOut := false;
      var k := 1;
      while k < 64
        invariant rd.Valid() && For(c)
        invariant if ranOut then Cut(rd.raw, whole) else Coefficients(rd.raw, rd.at, k, data[..], pred, c) == whole
      {
        Parts(c);
        ghost var at, before := rd.at, data[..];
        var found, t, ran := ReceiveAc(rd, hac, fac, c.acLens);
        FirstToken(rd.raw, at, k, before, pred, c);
        ranOut := ranOut || ran;
        if !found {
          return false, ranOut;
        }
        match t {
          case EndOfBlock => return true, ranOut;
          case SixteenZeros => k := k + 16;
          case Coefficient(run, v) =>
            k := k + run;
            PlaceCoefficient(data, k, v, c);
            k := k + 1;
        }
      }
      ok := true;
    }

    /** The DC symbol and the bits after it. */
    method DecodeDc(rd: Reader, ghost c: Coding) returns (ok: bool, diff: int, ghost ranOut: bool)
      requires rd.Valid() && For(c)
      modifies rd
      ensures rd.Valid() && For(c) && |c.dcLens| <= |c.dcValues|
      ensures ok && !ranOut ==> ReadDc(rd.raw, old(rd.at), c.dcLens, c.dcValues) == DcRead(diff, rd.at)
      ensures !ok || ranOut ==> var r := ReadDc(rd.raw, old(rd.at), c.dcLens, c.dcValues); r.DcRead? ==> r.at > 8 * |rd.raw|
    {
      hide Reader.Valid, For, Coding.Valid, Extend, Peek, ValueMsb, Comes, Accepted;
      Parts(c);
      diff, ranOut := 0, false;
      rd.ShortBuffer();
      var t := rd.HuffDecode(hdc, c.dcLens);
      if t < 0 || t > 15 {
        return false, 0, false;
      }
      ghost var next := rd.at;
      if t != 0 {
        diff := rd.ExtendReceive(t);
        ranOut := rd.at == next;
      }
      ok := true;
    }

    /** The 64 coefficients of a block.  They are what the reference reads, unless that runs past the data. */
    method DecodeBlock(rd: Reader, data: array<int>, pred: int, ghost c: Coding)
      returns (ok: bool, dc: int, ghost ranOut: bool)
      requires rd.Valid() && For(c) && data.Length == 64 && data != fac && data != hdc.delta && data != hac.delta
      modifies rd, data
      ensures rd.Valid() && For(c) && c.Valid()
      ensures ok && !ranOut ==> Decoded(rd.raw, old(rd.at), pred, c) == Block(data[..], rd.at, dc)
      ensures !ok || ranOut ==> Cut(rd.raw, Decoded(rd.raw, old(rd.at), pred, c))
      ensures RefusedDc(rd.raw, old(rd.at), pred, c) ==> !ok
    {
      hide Reader.Valid, For, Coding.Valid, ReadDc, Short, Mul2ShortsValid, Decoded, Coefficients, Cut, Blank;
      Parts(c);
      ghost var at := rd.at;
      var found, diff, ran := DecodeDc(rd, c);
      Parts(c);
      AfterDc(rd.raw, at, pred, c);
      dc, ranOut := pred + diff, ran;
      if !found || !AddIntsValid(pred, diff) || !Mul2ShortsValid(dc, dequant[0]) {
        return false, dc, ranOut;
      }
      ClearBlock(data, Short(dc * dequant[0]));
      ok, ran := DecodeAcs(rd, data, dc, c);
      ranOut := ranOut || ran;
    }

    /** Zeros all coefficients but the first. */
    method ClearBlock(data: array<int>, dc: int)
      requires data.Length == 64
      modifies data
      ensures data[..] == Blank(dc)
    {
      for i := 0 to 64
        invariant forall j :: 0 <= j < i ==> data[j] == 0
      {
        data[i] := 0;
      }
      data[0] := dc;
    }
  }

  /** Builds one code's tables, with the values of its symbols. */
  method BuildHuffman(count: seq<nat>, values: seq<byte>) returns (ok: bool, h: Huffman)
    requires |count| == 16 && |values| == 256
    ensures ok <==> |SizeList(count)| <= 256 && Accepted(SizeList(count))
    ensures fresh(h) && fresh(h.fast) && fresh(h.size) && fresh(h.maxcode) && fresh(h.delta) && fresh(h.values)
    ensures ok && Tabled(SizeList(count)) ==> h.TablesFor(SizeList(count)) && h.values[..] == values
  {
    hide Accepted, Huffman.TablesFor;
    h := new Huffman();
    h.SetValues(values);
    ok := h.Build(count);
  }

  /** Builds the tables of one component from the numbers of codes of each length and the symbols' values. */
  method BuildTables(dcCount: seq<nat>, dcValues: seq<byte>, acCount: seq<nat>, acValues: seq<byte>, dequant: seq<nat>)
    returns (ok: bool, t: Tables)
    requires |dcCount| == 16 && |acCount| == 16 && |dcValues| == 256 && |acValues| == 256 && |dequant| == 64
    requires Tabled(SizeList(dcCount)) && Tabled(SizeList(acCount))
    ensures ok <==> Accepted(SizeList(dcCount)) && Accepted(SizeList(acCount))
    ensures ok ==> t.For(Coding(SizeList(dcCount), dcValues, SizeList(acCount), acValues, dequant))
    ensures t.dequant == dequant
  {
    hide Accepted, Huffman.TablesFor, FastAcEntry;
    var okDc, dc := BuildHuffman(dcCount, dcValues);
    var okAc, ac := BuildHuffman(acCount, acValues);
    var fac := new int[FAST_SIZE];
    ok := okDc && okAc;
    if ok {
      BuildFastAc(fac, ac, SizeList(acCount));
    }
    t := new Tables(dc, ac, fac, dequant);
  }

  /** What follows the DC difference; a late one cuts the block short. */
  lemma {:induction false} AfterDc(raw: seq<byte>, at: nat, pred: int, c: Coding)
    requires c.Valid()
    ensures |c.dcLens| <= |c.dcValues| && |c.dequant| == 64
    ensures var r, b := ReadDc(raw, at, c.dcLens, c.dcValues), Decoded(raw, at, pred, c);
      && ((r.DcRead? ==> r.at > 8 * |raw|) ==> Cut(raw, b))
      && (r.DcRead? ==> b == if !AddIntsValid(pred, r.diff) || !Mul2ShortsValid(pred + r.diff, c.dequant[0]) then Corrupt
                             else Coefficients(raw, r.at, 1, Blank(Short((pred + r.diff) * c.dequant[0])), pred + r.diff, c))
      && Cut(raw, Corrupt)
  {
    hide ReadDc, Mul2ShortsValid, Short, Coefficients, Accepted, Blank, AddIntsValid;
    match ReadDc(raw, at, c.dcLens, c.dcValues)
    case NoDc =>
    case DcRead(diff, next) =>
      CoefficientsAdvance(raw, next, 1, Blank(Short((pred + diff) * c.dequant[0])), pred + diff, c);
  }

  /** If the next coefficient is late, the block is cut short. */
  lemma {:induction false} FirstToken(raw: seq<byte>, at: nat, k: nat, data: seq<int>, pred: int, c: Coding)
    requires c.Valid() && |data| == 64 && k < 64
    ensures Late(raw, ReadAc(raw, at, c.acLens, c.acValues)) ==> Cut(raw, Coefficients(raw, at, k, data, pred, c))
  {
    hide ReadAc, Placed;
    match ReadAc(raw, at, c.acLens, c.acValues)
    case NoToken =>
    case Read(EndOfBlock, next) =>
    case Read(SixteenZeros, next) => CoefficientsAdvance(raw, next, k + 16, data, pred, c);
    case Read(Coefficient(run, v), next) =>
      CoefficientsAdvance(raw, next, k + run + 1, Placed(data, k + run, v, c), pred, c);
  }
}
