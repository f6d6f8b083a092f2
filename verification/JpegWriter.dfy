/** Writing one block of JPEG coefficients, and getting it back. */
module JpegWriter {
  import opened Arithmetic
  import opened Bits
  import opened Canonical
  import opened JpegBits
  import opened JpegBlock
  import opened JpegReader
  import opened JpegTables
  import opened Options

  // ---- Values and their magnitude bits ----

  /** The number of bits of a magnitude. */
  function BitLength(x: nat): (r: nat)
    ensures x > 0 ==> r > 0 && Pow2(r - 1) <= x < Pow2(r)
    ensures x == 0 ==> r == 0
  {
    if x == 0 then 0 else BitLength(x / 2) + 1
  }

  function Magnitude(v: int): nat { if v < 0 then -v else v }

  /** The category of a value and the bits that pick it out within the category. */
  function Category(v: int): nat { BitLength(Magnitude(v)) }

  function ValueBits(v: int): (r: nat)
    requires v != 0
    ensures r < Pow2(Category(v))
  {
    if v > 0 then v else Pow2(Category(v)) - 1 + v
  }

  lemma {:induction false} ExtendUndoes(v: int)
    requires v != 0
    ensures Category(v) > 0 && Extend(ValueBits(v), Category(v)) == v
  {
  }

  lemma {:induction false} SmallCategory(v: int, n: nat)
    requires Magnitude(v) < Pow2(n)
    ensures Category(v) <= n
  {
    if Category(v) > n { Pow2Monotone(n, Category(v) - 1); }
  }

  /** The category and the bits of a value that is not zero. */
  method CalcBits(val: int) returns (code: nat, len: nat)
    requires val != 0
    ensures len == Category(val) && code == ValueBits(val)
  {
    var tmp1 := if val < 0 then -val else val;
    var v := if val < 0 then val - 1 else val;
    len := 1;
    while tmp1 / 2 > 0
      invariant tmp1 > 0 && len + BitLength(tmp1) == Category(val) + 1
      decreases tmp1
    {
      tmp1 := tmp1 / 2;
      len := len + 1;
    }
    assert BitLength(1) == 1 + BitLength(0);
    LowBitsOf(v, Pow2(len));
    code := v % Pow2(len);
  }

  lemma {:induction false} LowBitsOf(v: int, p: nat)
    requires p > 0 && -(p as int) <= v < p
    ensures v % p == if v < 0 then v + p else v
  {
    if v < 0 { Remainder(v, -1, v + p, p); } else { Remainder(v, 0, v, p); }
  }

  // ---- The bit writer ----

  class Writer {
    var out: seq<byte>
    var bitBuf: nat
    var bitCnt: nat
    /** The bytes before stuffing, and the bits still in the buffer. */
    ghost var raw: seq<byte>
    ghost var pending: seq<bool>
    ghost var top: nat

    ghost predicate Holds()
      reads this
    {
      && bitCnt <= 24 && |pending| == bitCnt && out == Stuffed(raw)
      && bitBuf == Pow2(24 - bitCnt) * top && top % Pow2(bitCnt) == ValueMsb(pending)
    }

    ghost predicate Valid()
      reads this
    {
      Holds() && bitCnt < 8
    }

    ghost function Written(): seq<bool>
      reads this
    {
      RawBits(raw) + pending
    }

    constructor ()
      ensures Valid() && out == [] && Written() == []
    {
      out, bitBuf, bitCnt, raw, pending, top := [], 0, 0, [], [], 0;
      new;
      ValueMsbZeros(0);
      assert Zeros(0) == [];
    }

    /** Writes `len` bits; a byte of 0xFF is followed by zero. */
    method WriteBits(code: nat, len: nat)
      requires Valid() && len <= 16 && code < Pow2(len)
      modifies this
      ensures Valid() && Written() == old(Written()) + Reversed(BitsOf(code, len))
    {
      PushBits(code, len);
      while bitCnt >= 8
        invariant Holds() && Written() == old(Written()) + Reversed(BitsOf(code, len))
        decreases bitCnt
      {
        PopByte();
      }
    }

    method PushBits(code: nat, len: nat)
      requires Valid() && len <= 16 && code < Pow2(len)
      modifies this
      ensures Holds() && Written() == old(Written()) + Reversed(BitsOf(code, len))
    {
      hide Stuffed, RawBits, ValueMsb, Or, ShiftLeft, Pow2;
      Pushed(bitBuf, top, pending, code, len);
      bitCnt := bitCnt + len;
      bitBuf := Or(bitBuf, ShiftLeft(code, 24 - bitCnt));
      top := top * Pow2(len) + code;
      pending := pending + Reversed(BitsOf(code, len));
    }

    method PopByte()
      requires Holds() && bitCnt >= 8
      modifies this
      ensures Holds() && bitCnt == old(bitCnt) - 8 && Written() == old(Written())
    {
      hide Stuffed, RawBits, ValueMsb, Pow2;
      Popped(bitBuf, top, pending);
      var c: byte := (bitBuf / 0x1_0000) % 256;
      BytePops(raw, pending, c);
      StuffedConcat(raw, [c]);
      OneStuffed(c);
      out := out + [c];
      if c == 255 {
        out := out + [0];
      }
      bitBuf := (bitBuf * 256) % 0x1_0000_0000;
      top := top % Pow2(bitCnt);
      bitCnt := bitCnt - 8;
      raw := raw + [c];
      pending := pending[8..];
    }
  }

  lemma {:induction false} OneStuffed(c: byte)
    ensures Stuffed([c]) == if c == 255 then [c, 0] else [c]
  {
    assert Stuffed([c][1..]) == [];
  }

  lemma {:induction false} BytePops(raw: seq<byte>, pending: seq<bool>, c: byte)
    requires |pending| >= 8 && Msb(c) == pending[..8]
    ensures RawBits(raw + [c]) + pending[8..] == RawBits(raw) + pending
  {
    RawBitsConcat(raw, [c]);
    assert RawBits([c]) == Msb(c) + RawBits([]);
    assert pending == pending[..8] + pending[8..];
  }

  /** New bits go in below the ones in the buffer, whatever is left above them. */
  lemma {:induction false} Pushed(buf: nat, top: nat, pending: seq<bool>, code: nat, len: nat)
    requires |pending| < 8 && len <= 16 && code < Pow2(len)
    requires buf == Pow2(24 - |pending|) * top && top % Pow2(|pending|) == ValueMsb(pending)
    ensures var n, t := |pending| + len, top * Pow2(len) + code;
      Or(buf, ShiftLeft(code, 24 - n)) == Pow2(24 - n) * t && t % Pow2(n) == ValueMsb(pending + Reversed(BitsOf(code, len)))
  {
    hide Or, ShiftLeft, Pow2, ValueMsb;
    var p, q, m := Pow2(24 - |pending| - len), Pow2(len), Pow2(|pending|);
    Pow2Add(24 - |pending| - len, len);
    Pow2Add(|pending|, len);
    ShiftLeftValue(code, 24 - |pending| - len);
    Below(code, q, p);
    OrCommutes(buf, p * code);
    OrAbove(p * code, top, 24 - |pending|);
    PushArithmetic(p, q, top, code);
    ValueMsbConcat(pending, Reversed(BitsOf(code, len)));
    MsbOfReversed(code, len);
    Divide(top, m);
    ModuloPush(top, m, q, code);
  }

  lemma {:induction false} PushArithmetic(p: nat, q: nat, top: nat, code: nat)
    ensures (q * p) * top + p * code == p * (top * q + code) && (p * q) * top == (q * p) * top
  {
    Commute(p, q);
    Assoc(p, q, top);
    Commute(q, top);
    Spread(p, top * q, code);
  }

  lemma {:induction false} ModuloPush(top: nat, m: nat, q: nat, code: nat)
    requires m > 0 && code < q
    ensures m * q > 0 && (top * q + code) % (m * q) == (top % m) * q + code
  {
    var h, l := top / m, top % m;
    AtLeast(m, q);
    Divide(top, m);
    Commute(m, h);
    Distribute(h * m, l, q);
    Assoc(h, m, q);
    assert l * q + code < m * q by { Scale(l + 1, m, q); Distribute(l, 1, q); }
    Remainder(top * q + code, h, l * q + code, m * q);
  }

  /** The top byte of the pending bits, and what shifting leaves. */
  lemma {:induction false} Popped(buf: nat, top: nat, pending: seq<bool>)
    requires 8 <= |pending| <= 24
    requires buf == Pow2(24 - |pending|) * top && top % Pow2(|pending|) == ValueMsb(pending)
    ensures (buf / 0x1_0000) % 256 == ValueMsb(pending[..8]) && Msb((buf / 0x1_0000) % 256) == pending[..8]
    ensures var n, t := |pending| - 8, top % Pow2(|pending|);
      (buf * 256) % 0x1_0000_0000 == Pow2(24 - n) * t && t % Pow2(n) == ValueMsb(pending[8..])
  {
    hide Pow2, ValueMsb, Msb;
    var n := |pending|;
    var p, q := Pow2(24 - n), Pow2(n - 8);
    assert pending == pending[..8] + pending[8..];
    ValueMsbConcat(pending[..8], pending[8..]);
    Pow2Values();
    Pow2Add(24 - n, n - 8);
    Pow2Add(8, n - 8);
    Pow2Add(24 - n, 8);
    Pow2Add(16, 16);
    PopArithmetic(top, ValueMsb(pending[..8]), ValueMsb(pending[8..]), p, q);
    MsbValue(ValueMsb(pending[..8]));
    MsbInjective(Msb(ValueMsb(pending[..8])), pending[..8]);
  }

  lemma {:induction false} PopArithmetic(top: nat, hi: nat, lo: nat, p: nat, q: nat)
    requires p * q == 0x1_0000 && hi < 256 && lo < q && top % (256 * q) == hi * q + lo && p > 0
    ensures ((p * top) / 0x1_0000) % 256 == hi
    ensures ((p * top) * 256) % 0x1_0000_0000 == (p * 256) * (hi * q + lo)
    ensures (hi * q + lo) % q == lo
  {
    var h, l := top / (256 * q), hi * q + lo;
    Divide(top, 256 * q);
    Remainder(l, hi, lo, q);
    assert top == (h * 256 + hi) * q + lo by { Commute(256 * q, h); Assoc(h, 256, q); Distribute(h * 256, hi, q); }
    var a := h * 256 + hi;
    assert p * top == a * 0x1_0000 + p * lo by { Spread(p, a * q, lo); Commute(p, a * q); Assoc(a, q, p); Commute(p, q); }
    assert p * lo < 0x1_0000 by { Below(lo, q, p); Commute(p, q); }
    Remainder(p * top, a, p * lo, 0x1_0000);
    Remainder(a, h, hi, 256);
    assert (p * 256) * l == 256 * (p * l) by { Commute(p, 256); Assoc(256, p, l); }
    assert p * l == hi * 0x1_0000 + p * lo by { Spread(p, hi * q, lo); Commute(p, hi * q); Assoc(hi, q, p); Commute(p, q); }
    Remainder((p * top) * 256, h, 256 * (p * l), 0x1_0000_0000);
  }

  // ---- The bits of a block ----

  /** A symbol with a code: its code and length in the writer's table. */
  type CodeTable = t: seq<(nat, nat)> | |t| == 256 witness seq(256, _ => (0, 0))

  /** The writer's table holds the canonical codes of these symbols. */
  predicate HasCodes(table: CodeTable, lens: seq<nat>, values: seq<byte>) {
    && |lens| <= |values| && (forall i :: 0 <= i < |lens| ==> 1 <= lens[i] <= 16)
    && forall i :: 0 <= i < |lens| ==> table[values[i]] == (Code(lens, i), lens[i])
  }

  predicate HasSymbol(lens: seq<nat>, values: seq<byte>, v: nat) { exists i :: 0 <= i < |lens| <= |values| && values[i] == v }

  /** The symbols a block may use: DC categories to 11, runs with categories 1 to 10, ZRL and EOB. */
  ghost predicate Complete(c: Coding) {
    && (forall t :: 0 <= t <= 11 ==> HasSymbol(c.dcLens, c.dcValues, t))
    && HasSymbol(c.acLens, c.acValues, 0) && HasSymbol(c.acLens, c.acValues, 0xf0)
    && forall run, t :: 0 <= run <= 15 && 1 <= t <= 10 ==> HasSymbol(c.acLens, c.acValues, AcSymbol(run, t))
  }

  function AcSymbol(run: nat, t: nat): nat { run * 16 + t }

  function SymbolBits(table: CodeTable, v: nat): seq<bool>
    requires v < 256
  {
    Reversed(BitsOf(table[v].0, table[v].1))
  }

  function AcSymbolOf(t: AcToken): nat {
    match t
    case Coefficient(run, v) => AcSymbol(run, Category(v))
    case SixteenZeros => 0xf0
    case EndOfBlock => 0
  }

  predicate Encodable(t: AcToken) { t.Coefficient? ==> t.run <= 15 && t.v != 0 && Magnitude(t.v) <= 1023 }

  lemma {:induction false} SymbolInRange(t: AcToken)
    requires Encodable(t)
    ensures AcSymbolOf(t) < 256 && (t.Coefficient? ==> 1 <= Category(t.v) <= 10)
  {
    if t.Coefficient? { Pow2Values(); SmallCategory(t.v, 10); }
  }

  function TokenBits(table: CodeTable, t: AcToken): seq<bool>
    requires Encodable(t)
  {
    SymbolInRange(t);
    SymbolBits(table, AcSymbolOf(t)) + if t.Coefficient? then Reversed(BitsOf(ValueBits(t.v), Category(t.v))) else []
  }

  /** How many zeros there are from `k` on. */
  function Zeroes(du: seq<int>, k: nat): (r: nat)
    ensures k <= |du| ==> k + r <= |du| && (k + r < |du| ==> du[k + r] != 0)
    ensures forall j :: k <= j < k + r && j < |du| ==> du[j] == 0
    decreases |du| - k
  {
    if k >= |du| || du[k] != 0 then 0 else 1 + Zeroes(du, k + 1)
  }

  /** The AC coefficients from zigzag position `k` on, as runs of zeros and values. */
  function Tokens(du: seq<int>, k: nat): seq<AcToken>
    requires k <= |du|
    decreases |du| - k
  {
    var n := Zeroes(du, k);
    if k + n == |du| then (if n == 0 then [] else [EndOfBlock])
    else if n >= 16 then [SixteenZeros] + Tokens(du, k + 16)
    else [Coefficient(n, du[k + n])] + Tokens(du, k + n + 1)
  }

  predicate Small(du: seq<int>) { |du| == 64 && forall k :: 1 <= k < 64 ==> Magnitude(du[k]) <= 1023 }

  lemma {:induction false} TokensEncodable(du: seq<int>, k: nat)
    requires Small(du) && 1 <= k <= 64
    ensures forall t <- Tokens(du, k) :: Encodable(t)
    decreases 64 - k
  {
    var n := Zeroes(du, k);
    if k + n < 64 {
      TokensEncodable(du, if n >= 16 then k + 16 else k + n + 1);
    }
  }

  function AllTokenBits(table: CodeTable, ts: seq<AcToken>): seq<bool>
    requires forall t <- ts :: Encodable(t)
  {
    if ts == [] then [] else TokenBits(table, ts[0]) + AllTokenBits(table, ts[1..])
  }

  function DcBits(table: CodeTable, diff: int): seq<bool>
    requires Magnitude(diff) <= 2047
  {
    DcInRange(diff);
    SymbolBits(table, Category(diff)) + if diff != 0 then Reversed(BitsOf(ValueBits(diff), Category(diff))) else []
  }

  lemma {:induction false} DcInRange(diff: int)
    requires Magnitude(diff) <= 2047
    ensures Category(diff) <= 11
  {
    Pow2Values();
    SmallCategory(diff, 11);
  }

  function BlockBits(dcTable: CodeTable, acTable: CodeTable, du: seq<int>, dc: int): seq<bool>
    requires Small(du) && Magnitude(du[0] - dc) <= 2047
  {
    TokensEncodable(du, 1);
    DcBits(dcTable, du[0] - dc) + AllTokenBits(acTable, Tokens(du, 1))
  }

  // ---- Reading the bits back ----

  ghost predicate BitsHere(raw: seq<byte>, at: nat, bits: seq<bool>) {
    at + |bits| <= 8 * |raw| && Peek(raw, at, |bits|) == bits
  }

  lemma {:induction false} BitsHereSplit(raw: seq<byte>, at: nat, a: seq<bool>, b: seq<bool>)
    ensures BitsHere(raw, at, a + b) <==> BitsHere(raw, at, a) && BitsHere(raw, at + |a|, b)
  {
    PeekConcat(raw, at, |a|, |b|);
    var w, v := Peek(raw, at, |a|), Peek(raw, at + |a|, |b|);
    if w + v == a + b { assert (w + v)[..|a|] == w && (a + b)[..|a|] == a && (w + v)[|a|..] == v && (a + b)[|a|..] == b; }
  }

  /** A symbol of the table is read as one of the symbols with that value. */
  lemma {:induction false} SymbolHere(table: CodeTable, lens: seq<nat>, values: seq<byte>, raw: seq<byte>, at: nat, v: nat)
    returns (i: nat)
    requires HasCodes(table, lens, values) && HasSymbol(lens, values, v) && Accepted(lens) && v < 256
    requires BitsHere(raw, at, SymbolBits(table, v))
    ensures i < |lens| && values[i] == v && Symbol(lens, raw, at) == Some(i) && |SymbolBits(table, v)| == lens[i]
  {
    i :| 0 <= i < |lens| && values[i] == v;
    assert SymbolBits(table, v) == CodeBits(lens, i);
    var w := Peek(raw, at, LONGEST);
    PeekConcat(raw, at, lens[i], LONGEST - lens[i]);
    assert w[..lens[i]] == CodeBits(lens, i);
    SymbolIs(lens, raw, at, i);
  }

  lemma {:induction false} ValueHere(raw: seq<byte>, at: nat, v: int)
    requires v != 0 && BitsHere(raw, at, Reversed(BitsOf(ValueBits(v), Category(v))))
    ensures Category(v) > 0 && Extend(ValueMsb(Peek(raw, at, Category(v))), Category(v)) == v
  {
    MsbOfReversed(ValueBits(v), Category(v));
    ExtendUndoes(v);
  }

  lemma {:induction false} TokenReadsBack(table: CodeTable, c: Coding, raw: seq<byte>, at: nat, t: AcToken)
    requires c.Valid() && HasCodes(table, c.acLens, c.acValues) && Complete(c) && Encodable(t)
    requires BitsHere(raw, at, TokenBits(table, t))
    ensures |c.acLens| <= |c.acValues|
    ensures ReadAc(raw, at, c.acLens, c.acValues) == Read(t, at + |TokenBits(table, t)|)
  {
    hide Peek, ValueMsb, Extend, Comes, Category, ValueBits, SymbolBits, BitsHere, Accepted, HasCodes, Complete, HasSymbol;
    SymbolInRange(t);
    SymbolPresent(c, t);
    var sym := SymbolBits(table, AcSymbolOf(t));
    var rest := if t.Coefficient? then Reversed(BitsOf(ValueBits(t.v), Category(t.v))) else [];
    BitsHereSplit(raw, at, sym, rest);
    var i := SymbolHere(table, c.acLens, c.acValues, raw, at, AcSymbolOf(t));
    if t.Coefficient? {
      ValueHere(raw, at + |sym|, t.v);
      FieldsOf(t.run, Category(t.v));
    }
  }

  lemma {:induction false} SymbolPresent(c: Coding, t: AcToken)
    requires Complete(c) && Encodable(t)
    ensures HasSymbol(c.acLens, c.acValues, AcSymbolOf(t))
  {
    SymbolInRange(t);
  }

  lemma {:induction false} FieldsOf(run: nat, s: nat)
    requires run <= 15 && s < 16
    ensures AcSymbol(run, s) % 16 == s && AcSymbol(run, s) / 16 == run
  {
  }

  /** The block holds the first `k` coefficients, in their places and with their multipliers, and zeros. */
  ghost predicate Agrees(data: seq<int>, du: seq<int>, k: nat, dequant: seq<nat>) {
    |data| == |du| == |dequant| == 64
    && forall j: nat :: j < 64 ==> data[PlaceOf(j)] == if j < k then Short(du[j] * dequant[PlaceOf(j)]) else 0
  }

  function PlaceOf(j: nat): (r: nat)
    ensures r < 64
  {
    ZigzagInRange(j);
    Dezigzag(j)
  }

  lemma {:induction false} ZerosAgree(data: seq<int>, du: seq<int>, k: nat, n: nat, dequant: seq<nat>)
    requires Agrees(data, du, k, dequant) && forall j :: k <= j < k + n && j < 64 ==> du[j] == 0
    ensures Agrees(data, du, k + n, dequant)
  {
    hide PlaceOf;
    forall j: nat | k <= j < k + n && j < 64 ensures Short(du[j] * dequant[PlaceOf(j)]) == 0 {
      assert 0 * dequant[PlaceOf(j)] == 0;
    }
  }

  /** Putting the next coefficient in its place. */
  lemma {:induction false} PlacedAgrees(data: seq<int>, du: seq<int>, k: nat, c: Coding)
    requires Agrees(data, du, k, c.dequant) && k < 64
    ensures Agrees(Placed(data, k, du[k], c), du, k + 1, c.dequant)
  {
    hide Dezigzag, Zigzag, Short;
    ZigzagInRange(k);
    ZigzagsInverse(k);
    var placed := Placed(data, k, du[k], c);
    forall j: nat | j < 64 ensures placed[PlaceOf(j)] == if j < k + 1 then Short(du[j] * c.dequant[PlaceOf(j)]) else 0 {
      ZigzagsInverse(j);
      if j != k { assert PlaceOf(j) != PlaceOf(k); }
    }
  }

  /** The coefficients of the rest of a block are read back. */
  lemma {:induction false} RestReadsBack(table: CodeTable, c: Coding, raw: seq<byte>, at: nat, du: seq<int>, k: nat,
                                         data: seq<int>, pred: int)
    requires c.Valid() && HasCodes(table, c.acLens, c.acValues) && Complete(c)
    requires Small(du) && 1 <= k <= 64 && Agrees(data, du, k, c.dequant) && forall t <- Tokens(du, k) :: Encodable(t)
    requires BitsHere(raw, at, AllTokenBits(table, Tokens(du, k)))
    ensures var b := Coefficients(raw, at, k, data, pred, c);
      b.Block? && Agrees(b.data, du, 64, c.dequant) && b.at == at + |AllTokenBits(table, Tokens(du, k))| && b.pred == pred
    decreases 64 - k
  {
    hide Coding.Valid, HasCodes, Complete, Small, Agrees, BitsHere, TokenBits, ReadAc, Placed, Encodable;
    DataLength(data, du, k, c);
    var ts, n := Tokens(du, k), Zeroes(du, k);
    if ts != [] {
      BitsHereSplit(raw, at, TokenBits(table, ts[0]), AllTokenBits(table, ts[1..]));
      TokenReadsBack(table, c, raw, at, ts[0]);
      var next := at + |TokenBits(table, ts[0])|;
      if k + n == 64 {
        ZerosAgree(data, du, k, n, c.dequant);
        assert ts[1..] == [];
      } else if n >= 16 {
        ZerosAgree(data, du, k, 16, c.dequant);
        assert ts[1..] == Tokens(du, k + 16);
        RestReadsBack(table, c, raw, next, du, k + 16, data, pred);
      } else {
        ZerosAgree(data, du, k, n, c.dequant);
        PlacedAgrees(data, du, k + n, c);
        assert ts[1..] == Tokens(du, k + n + 1);
        RestReadsBack(table, c, raw, next, du, k + n + 1, Placed(data, k + n, du[k + n], c), pred);
      }
    }
  }

  lemma {:induction false} DataLength(data: seq<int>, du: seq<int>, k: nat, c: Coding)
    requires Agrees(data, du, k, c.dequant) && c.Valid() && Small(du)
    ensures |data| == 64 && |du| == 64 && |c.acLens| <= |c.acValues| && |c.dequant| == 64
  {
  }

  /** The block holds each coefficient times the multiplier of its place, cast to 16 bits. */
  predicate Scaled(data: seq<int>, du: seq<int>, dequant: seq<nat>) {
    |data| == |du| == |dequant| == 64 && forall j :: 0 <= j < 64 ==> data[j] == Short(du[IndexOf(j)] * dequant[j])
  }

  /** The block in its natural order. */
  predicate Natural(data: seq<int>, du: seq<int>) {
    |data| == 64 == |du| && forall j :: 0 <= j < 64 ==> data[j] == du[IndexOf(j)]
  }

  function IndexOf(j: nat): (r: nat)
    requires j < 64
    ensures r < 64
  {
    ZigzagsInverse(j);
    Zigzag(j)
  }

  lemma {:induction false} AgreesIsScaled(data: seq<int>, du: seq<int>, dequant: seq<nat>)
    requires Agrees(data, du, 64, dequant)
    ensures Scaled(data, du, dequant)
  {
    hide Dezigzag, Zigzag, Short;
    forall j: nat | j < 64 ensures data[j] == Short(du[IndexOf(j)] * dequant[j]) {
      ZigzagsInverse(j);
      assert data[PlaceOf(IndexOf(j))] == Short(du[IndexOf(j)] * dequant[PlaceOf(IndexOf(j))]);
    }
  }

  /** Where every product fits 16 bits, the cast does nothing. */
  lemma {:induction false} FittingProducts(data: seq<int>, du: seq<int>, dequant: seq<nat>)
    requires Scaled(data, du, dequant) && forall j :: 0 <= j < 64 ==> IsShort(du[IndexOf(j)] * dequant[j])
    ensures forall j :: 0 <= j < 64 ==> data[j] == du[IndexOf(j)] * dequant[j]
    ensures (forall j :: 0 <= j < 64 ==> dequant[j] == 1) ==> Natural(data, du)
  {
    hide IndexOf;
    if forall j :: 0 <= j < 64 ==> dequant[j] == 1 {
      forall j | 0 <= j < 64 ensures data[j] == du[IndexOf(j)] { assert du[IndexOf(j)] * 1 == du[IndexOf(j)]; }
    }
  }

  /** What makes a block's coefficients, and the tables, fit to be coded. */
  ghost predicate Codable(dcTable: CodeTable, acTable: CodeTable, du: seq<int>, dc: int, c: Coding) {
    && c.Valid() && HasCodes(dcTable, c.dcLens, c.dcValues) && HasCodes(acTable, c.acLens, c.acValues)
    && Complete(c)
    && Small(du) && Magnitude(du[0] - dc) <= 2047 && -32768 <= du[0] <= 32767
  }

  lemma {:induction false} DcReadsBack(table: CodeTable, lens: seq<nat>, values: seq<byte>, raw: seq<byte>, at: nat, diff: int)
    requires HasCodes(table, lens, values) && Accepted(lens) && Magnitude(diff) <= 2047
    requires HasSymbol(lens, values, Category(diff)) && BitsHere(raw, at, DcBits(table, diff))
    ensures ReadDc(raw, at, lens, values) == DcRead(diff, at + |DcBits(table, diff)|)
  {
    hide Peek, ValueMsb, Extend, Comes, ValueBits, SymbolBits, BitsHere, Accepted, ReadDc, DcBits, Symbol, Reversed, HasCodes, HasSymbol,
         BitsOf, Category;
    DcInRange(diff);
    DcBitsAre(table, diff);
    var t := Category(diff);
    var sym := SymbolBits(table, t);
    var rest := if diff != 0 then Reversed(BitsOf(ValueBits(diff), t)) else [];
    BitsHereSplit(raw, at, sym, rest);
    CodesFit(table, lens, values);
    var i := SymbolHere(table, lens, values, raw, at, t);
    ReadDcIs(raw, at, lens, values, i);
    if diff != 0 { ValueHere(raw, at + |sym|, diff); }
  }

  lemma {:induction false} CodesFit(table: CodeTable, lens: seq<nat>, values: seq<byte>)
    requires HasCodes(table, lens, values)
    ensures |lens| <= |values|
  {
  }

  lemma {:induction false} DcBitsAre(table: CodeTable, diff: int)
    requires Magnitude(diff) <= 2047
    ensures Category(diff) <= 11 && (diff == 0 <==> Category(diff) == 0)
    ensures DcBits(table, diff) == SymbolBits(table, Category(diff))
                                   + if diff != 0 then Reversed(BitsOf(ValueBits(diff), Category(diff))) else []
    ensures diff != 0 ==> |Reversed(BitsOf(ValueBits(diff), Category(diff)))| == Category(diff)
  {
    DcInRange(diff);
  }

  lemma {:induction false} ReadDcIs(raw: seq<byte>, at: nat, lens: seq<nat>, values: seq<byte>, i: nat)
    requires |lens| <= |values| && i < |lens| && Symbol(lens, raw, at) == Some(i) && values[i] <= 15
    ensures ReadDc(raw, at, lens, values)
         == if values[i] == 0 then DcRead(0, at + lens[i])
            else DcRead(Extend(ValueMsb(Peek(raw, at + lens[i], values[i])), values[i]), at + lens[i] + values[i])
  {
    hide Symbol, Extend, ValueMsb, Peek;
  }

  /** A block's bits are read back as its coefficients times their multipliers, exactly when the DC product
      fits 16 bits. */
  lemma {:induction false} BlockReadsBack(dcTable: CodeTable, acTable: CodeTable, c: Coding, raw: seq<byte>, at: nat,
                                          du: seq<int>, dc: int)
    requires Codable(dcTable, acTable, du, dc, c)
    requires BitsHere(raw, at, BlockBits(dcTable, acTable, du, dc))
    ensures c.Valid()
    ensures var b := Decoded(raw, at, dc, c);
      && (b.Block? <==> IsShort(du[0] * c.dequant[0]))
      && (b.Block? ==> Scaled(b.data, du, c.dequant) && b.at == at + |BlockBits(dcTable, acTable, du, dc)| && b.pred == du[0])
      && (b.Corrupt? ==> RefusedDc(raw, at, dc, c))
  {
    hide HasCodes, BitsHere, ReadDc, Coefficients, DcBits, AllTokenBits, Agrees, Scaled, Blank, Accepted, Tokens, Category, Short,
         Mul2ShortsValid, IsShort;
    TokensEncodable(du, 1);
    var dcBits, acBits := DcBits(dcTable, du[0] - dc), AllTokenBits(acTable, Tokens(du, 1));
    BitsHereSplit(raw, at, dcBits, acBits);
    DcInRange(du[0] - dc);
    DcReadsBack(dcTable, c.dcLens, c.dcValues, raw, at, du[0] - dc);
    ProductFits(du[0], c.dequant[0]);
    DcIsHere(raw, at, dcBits);
    if Mul2ShortsValid(du[0], c.dequant[0]) {
      var blank := Blank(Short(du[0] * c.dequant[0]));
      BlankAgrees(du, c.dequant);
      RestReadsBack(acTable, c, raw, at + |dcBits|, du, 1, blank, du[0]);
      AgreesIsScaled(Coefficients(raw, at + |dcBits|, 1, blank, du[0], c).data, du, c.dequant);
    }
  }

  lemma {:induction false} DcIsHere(raw: seq<byte>, at: nat, bits: seq<bool>)
    requires BitsHere(raw, at, bits)
    ensures at + |bits| <= 8 * |raw|
  {
  }

  lemma {:induction false} BlankAgrees(du: seq<int>, dequant: seq<nat>)
    requires |du| == |dequant| == 64
    ensures Agrees(Blank(Short(du[0] * dequant[0])), du, 1, dequant)
  {
    hide Dezigzag, Zigzag, Short;
    assert PlaceOf(0) == 0 by { FirstPlace(); }
    var dc := Short(du[0] * dequant[0]);
    forall j: nat | j < 64 ensures Blank(dc)[PlaceOf(j)] == if j < 1 then Short(du[j] * dequant[PlaceOf(j)]) else 0 {
      ZigzagsInverse(j);
      ZigzagsInverse(0);
    }
  }

  lemma {:induction false} FirstPlace()
    ensures PlaceOf(0) == 0
  {
  }

  // ---- Writing a block ----

  method WriteSymbol(w: Writer, table: CodeTable, v: nat)
    requires w.Valid() && v < 256 && CodeFitsIn(table, v)
    modifies w
    ensures w.Valid() && w.Written() == old(w.Written()) + SymbolBits(table, v)
  {
    w.WriteBits(table[v].0, table[v].1);
  }

  /** The table's entry is a code of at most sixteen bits. */
  predicate CodeFitsIn(table: CodeTable, v: nat)
    requires v < 256
  {
    table[v].1 <= 16 && table[v].0 < Pow2(table[v].1)
  }

  lemma {:induction false} CodesFitIn(table: CodeTable, lens: seq<nat>, values: seq<byte>, v: nat)
    requires HasCodes(table, lens, values) && HasSymbol(lens, values, v) && Accepted(lens) && v < 256
    ensures CodeFitsIn(table, v)
  {
    var i :| 0 <= i < |lens| && values[i] == v;
    CodeFits(lens, i);
  }

  /** Every code a block needs fits. */
  ghost predicate Ready(dcTable: CodeTable, acTable: CodeTable) {
    && (forall t :: 0 <= t <= 11 ==> CodeFitsIn(dcTable, t))
    && forall t: AcToken :: Encodable(t) ==> AcSymbolOf(t) < 256 && CodeFitsIn(acTable, AcSymbolOf(t))
  }

  lemma {:induction false} CodableIsReady(dcTable: CodeTable, acTable: CodeTable, du: seq<int>, dc: int, c: Coding)
    requires Codable(dcTable, acTable, du, dc, c)
    ensures Ready(dcTable, acTable)
  {
    hide HasCodes, CodeFitsIn, Accepted;
    forall t | 0 <= t <= 11 ensures CodeFitsIn(dcTable, t) { CodesFitIn(dcTable, c.dcLens, c.dcValues, t); }
    forall t: AcToken | Encodable(t) ensures AcSymbolOf(t) < 256 && CodeFitsIn(acTable, AcSymbolOf(t)) {
      SymbolInRange(t);
      SymbolPresent(c, t);
      CodesFitIn(acTable, c.acLens, c.acValues, AcSymbolOf(t));
    }
  }

  method WriteDc(w: Writer, table: CodeTable, diff: int)
    requires w.Valid() && Magnitude(diff) <= 2047 && forall t :: 0 <= t <= 11 ==> CodeFitsIn(table, t)
    modifies w
    ensures w.Valid() && w.Written() == old(w.Written()) + DcBits(table, diff)
  {
    hide Writer.Valid, Writer.Written, SymbolBits, CodeFitsIn, Category, ValueBits;
    DcInRange(diff);
    NoCategory();
    if diff == 0 {
      WriteSymbol(w, table, 0);
    } else {
      var code, len := CalcBits(diff);
      WriteSymbol(w, table, len);
      w.WriteBits(code, len);
    }
  }

  lemma {:induction false} NoCategory()
    ensures Category(0) == 0
  {
  }

  method WriteToken(w: Writer, table: CodeTable, t: AcToken)
    requires w.Valid() && Encodable(t) && AcSymbolOf(t) < 256 && CodeFitsIn(table, AcSymbolOf(t))
    modifies w
    ensures w.Valid() && w.Written() == old(w.Written()) + TokenBits(table, t)
  {
    hide Writer.Valid, Writer.Written, SymbolBits, CodeFitsIn, Category, ValueBits;
    SymbolInRange(t);
    match t {
      case EndOfBlock => WriteSymbol(w, table, 0);
      case SixteenZeros => WriteSymbol(w, table, 0xf0);
      case Coefficient(run, v) =>
        var code, len := CalcBits(v);
        WriteSymbol(w, table, run * 16 + len);
        w.WriteBits(code, len);
    }
  }

  lemma {:induction false} TokensStep(du: seq<int>, k: nat)
    requires k <= |du| && Tokens(du, k) != []
    ensures var n, ts := Zeroes(du, k), Tokens(du, k);
      if k + n == |du| then ts == [EndOfBlock] && n > 0
      else if n >= 16 then ts == [SixteenZeros] + Tokens(du, k + 16) && ts[1..] == Tokens(du, k + 16) && ts[0] == SixteenZeros
      else ts[0] == Coefficient(n, du[k + n]) && ts[1..] == Tokens(du, k + n + 1)
  {
  }

  lemma {:induction false} ZeroesAfter(du: seq<int>, k: nat, m: nat)
    requires m <= Zeroes(du, k) && k <= |du|
    ensures Zeroes(du, k + m) == Zeroes(du, k) - m
    decreases m
  {
    if m > 0 { ZeroesAfter(du, k + 1, m - 1); }
  }

  /** The number of zeros up to the next coefficient. */
  lemma {:induction false} ZeroesAre(du: seq<int>, k: nat, i: nat)
    requires k <= i < |du| && du[i] != 0 && forall j :: k <= j < i ==> du[j] == 0
    ensures Zeroes(du, k) == i - k
    decreases i - k
  {
    if k < i { ZeroesAre(du, k + 1, i); }
  }

  lemma {:induction false} ZeroesToEnd(du: seq<int>, k: nat)
    requires k <= |du| && forall j :: k <= j < |du| ==> du[j] == 0
    ensures Zeroes(du, k) == |du| - k
    decreases |du| - k
  {
    if k < |du| { ZeroesToEnd(du, k + 1); }
  }

  /** The last coefficient that is not zero, or zero if there is none. */
  method LastNonzero(du: seq<int>) returns (end0pos: nat)
    requires |du| == 64
    ensures end0pos <= 63 && (end0pos > 0 ==> du[end0pos] != 0) && forall j :: end0pos < j < 64 ==> du[j] == 0
  {
    end0pos := 63;
    while end0pos > 0 && du[end0pos] == 0
      invariant end0pos <= 63 && forall j :: end0pos < j < 64 ==> du[j] == 0
    {
      end0pos := end0pos - 1;
    }
  }

  /** What remains to be written. */
  ghost predicate Remaining(w: Writer, table: CodeTable, du: seq<int>, k: nat, whole: seq<bool>)
    requires k <= |du|
    reads w
  {
    w.Valid() && (forall t <- Tokens(du, k) :: Encodable(t)) && w.Written() + AllTokenBits(table, Tokens(du, k)) == whole
  }

  /** Writes the first remaining token. */
  method WriteNext(w: Writer, table: CodeTable, ghost du: seq<int>, ghost k: nat, ghost k': nat, t: AcToken, ghost whole: seq<bool>)
    requires k <= |du| && k' <= |du| && Tokens(du, k) != [] && Tokens(du, k)[0] == t && Tokens(du, k)[1..] == Tokens(du, k')
    requires Remaining(w, table, du, k, whole) && AcSymbolOf(t) < 256 && CodeFitsIn(table, AcSymbolOf(t))
    modifies w
    ensures Remaining(w, table, du, k', whole)
  {
    hide Tokens, Writer.Valid, Writer.Written, TokenBits, Encodable, AcSymbolOf;
    assert t in Tokens(du, k);
    assert forall u <- Tokens(du, k)[1..] :: u in Tokens(du, k);
    ghost var before := w.Written();
    assert before + (TokenBits(table, t) + AllTokenBits(table, Tokens(du, k')))
        == before + TokenBits(table, t) + AllTokenBits(table, Tokens(du, k'));
    WriteToken(w, table, t);
  }

  /** Whole sixteens of zeros within a run. */
  method WriteSixteens(w: Writer, table: CodeTable, ghost du: seq<int>, ghost start: nat, lng: nat, ghost whole: seq<bool>)
    requires start < |du| == 64 && 16 * lng <= Zeroes(du, start) && start + Zeroes(du, start) < 64
    requires Remaining(w, table, du, start, whole) && forall t: AcToken :: Encodable(t) ==> AcSymbolOf(t) < 256 && CodeFitsIn(table, AcSymbolOf(t))
    modifies w
    ensures Remaining(w, table, du, start + 16 * lng, whole)
  {
    hide Remaining, Tokens, CodeFitsIn, Zeroes, AcSymbolOf;
    for nrmarker := 0 to lng
      invariant Remaining(w, table, du, start + 16 * nrmarker, whole)
    {
      ghost var k := start + 16 * nrmarker;
      ZeroesAfter(du, start, 16 * nrmarker);
      SomeToken(du, k);
      TokensStep(du, k);
      WriteNext(w, table, du, k, k + 16, SixteenZeros, whole);
    }
  }

  /** Writes the runs of sixteen zeros, and the coefficient after what is left. */
  method WriteRun(w: Writer, table: CodeTable, du: seq<int>, start: nat, i: nat, ghost whole: seq<bool>)
    requires |du| == 64 && Small(du) && 1 <= start <= i < 64 && du[i] != 0 && forall j :: start <= j < i ==> du[j] == 0
    requires Remaining(w, table, du, start, whole) && forall t: AcToken :: Encodable(t) ==> AcSymbolOf(t) < 256 && CodeFitsIn(table, AcSymbolOf(t))
    modifies w
    ensures Remaining(w, table, du, i + 1, whole)
  {
    hide Remaining, Tokens, CodeFitsIn, Small, Zeroes, AcSymbolOf;
    ZeroesAre(du, start, i);
    var nrzeroes := i - start;
    ghost var k := start;
    if nrzeroes >= 16 {
      var lng := nrzeroes / 16;
      WriteSixteens(w, table, du, start, lng, whole);
      k := start + 16 * lng;
      ZeroesAfter(du, start, 16 * lng);
      nrzeroes := nrzeroes % 16;
    }
    SomeToken(du, k);
    TokensStep(du, k);
    SmallCoefficient(du, i);
    WriteNext(w, table, du, k, i + 1, Coefficient(nrzeroes, du[i]), whole);
  }

  lemma {:induction false} SomeToken(du: seq<int>, k: nat)
    requires k < |du|
    ensures Tokens(du, k) != []
  {
  }

  lemma {:induction false} SmallCoefficient(du: seq<int>, i: nat)
    requires Small(du) && 1 <= i < 64
    ensures |du| == 64 && Magnitude(du[i]) <= 1023
  {
  }

  /** Writes one block of quantised coefficients in zigzag order; the result is the DC prediction for the next. */
  method ProcessDU(w: Writer, du: seq<int>, dc: int, htdc: CodeTable, htac: CodeTable) returns (pred: int)
    requires w.Valid() && Small(du) && Magnitude(du[0] - dc) <= 2047 && Ready(htdc, htac)
    modifies w
    ensures w.Valid() && w.Written() == old(w.Written()) + BlockBits(htdc, htac, du, dc) && pred == du[0]
  {
    hide Writer.Valid, Writer.Written, Tokens, DcBits, AllTokenBits, CodeFitsIn;
    TokensEncodable(du, 1);
    ghost var whole := w.Written() + BlockBits(htdc, htac, du, dc);
    ghost var rest := AllTokenBits(htac, Tokens(du, 1));
    assert w.Written() + (DcBits(htdc, du[0] - dc) + rest) == w.Written() + DcBits(htdc, du[0] - dc) + rest;
    WriteDc(w, htdc, du[0] - dc);
    var end0pos := LastNonzero(du);
    var i := 1;
    while i <= end0pos
      invariant 1 <= i <= end0pos + 1 && Remaining(w, htac, du, i, whole)
      decreases end0pos - i
    {
      var startpos := i;
      while i <= end0pos && du[i] == 0
        invariant startpos <= i <= end0pos && forall j :: startpos <= j < i ==> du[j] == 0
      {
        i := i + 1;
      }
      WriteRun(w, htac, du, startpos, i, whole);
      i := i + 1;
    }
    WriteEnd(w, htac, du, end0pos, i, whole);
    pred := du[0];
  }

  /** An end-of-block code, unless the last coefficient was written. */
  method WriteEnd(w: Writer, table: CodeTable, du: seq<int>, end0pos: nat, i: nat, ghost whole: seq<bool>)
    requires |du| == 64 && 1 <= i == end0pos + 1 <= 64 && (forall j :: i <= j < 64 ==> du[j] == 0) && Remaining(w, table, du, i, whole)
    requires forall t: AcToken :: Encodable(t) ==> AcSymbolOf(t) < 256 && CodeFitsIn(table, AcSymbolOf(t))
    modifies w
    ensures w.Valid() && w.Written() == whole
  {
    ZeroesToEnd(du, i);
    assert Tokens(du, 64) == [];
    if end0pos != 63 {
      WriteNext(w, table, du, i, 64, EndOfBlock, whole);
    }
    assert w.Written() + [] == w.Written();
  }

  /** Writes a block and the seven fill bits and the marker that end the data. */
  method WriteOneBlock(du: seq<int>, dc: int, htdc: CodeTable, htac: CodeTable) returns (data: seq<byte>, ghost raw: seq<byte>)
    requires Small(du) && Magnitude(du[0] - dc) <= 2047 && Ready(htdc, htac)
    ensures raw == Unstuffed(data, 0) && BitsHere(raw, 0, BlockBits(htdc, htac, du, dc))
  {
    hide Small, Ready, BlockBits, Stuffed;
    var w := new Writer();
    var _ := ProcessDU(w, du, dc, htdc, htac);
    ghost var bits := w.Written();
    FillBits();
    w.WriteBits(0x7F, 7);
    EnoughWritten(w.raw, w.pending, bits, Reversed(BitsOf(0x7F, 7)));
    data := w.out + [0xff, 0xd9];
    EndOfImage(w.raw, data);
    raw := w.raw;
  }

  lemma {:induction false} FillBits()
    ensures 0x7F < Pow2(7)
  {
    Pow2Values();
  }

  /** The fill bits push the last bits of the block out of the buffer. */
  lemma {:induction false} EnoughWritten(raw: seq<byte>, pending: seq<bool>, bits: seq<bool>, fill: seq<bool>)
    requires RawBits(raw) + pending == bits + fill && |pending| < 8 && |fill| == 7
    ensures BitsHere(raw, 0, bits)
  {
    var all := RawBits(raw) + pending;
    assert |all| == 8 * |raw| + |pending| == |bits| + 7;
    assert |bits| <= 8 * |raw|;
    var w := Peek(raw, 0, |bits|);
    forall k | 0 <= k < |bits| ensures w[k] == bits[k] {
      assert w[k] == BitIn(raw, 0 + k);
      assert all[k] == RawBits(raw)[k] && (bits + fill)[k] == bits[k];
    }
  }

  /** The end-of-image marker ends the data. */
  lemma {:induction false} EndOfImage(raw: seq<byte>, data: seq<byte>)
    requires data == Stuffed(raw) + [0xff, 0xd9]
    ensures Unstuffed(data, 0) == raw
  {
    assert data == [] + Stuffed(raw) + [0xff, 0xd9];
    UnstuffStuffed(raw, [], [0xff, 0xd9]);
    var p := |Stuffed(raw)|;
    assert data[p] == 0xff && data[p + 1] == 0xd9;
    assert SkipFill(data, p + 1) == p + 1;
    assert NextByte(data, p) == Marker(p + 2);
    assert Unstuffed(data, p) == [];
    assert raw + [] == raw;
  }

  /** Any block of coefficients in range is read back after writing, each multiplied by the multiplier of its
      place, exactly when the DC product fits 16 bits. */
  method BlockRoundTrip(du: seq<int>, dc: int, htdc: CodeTable, htac: CodeTable, dec: Tables, ghost c: Coding)
    returns (ok: bool, data: array<int>, pred: int)
    requires Codable(htdc, htac, du, dc, c) && dec.For(c)
    ensures ok <==> IsShort(du[0] * dec.dequant[0])
    ensures ok ==> Scaled(data[..], du, dec.dequant) && pred == du[0]
  {
    hide Codable, Tables.For, Small, Ready, BlockBits, Scaled, Complete, BitsHere, Reader.Valid, Decoded, RefusedDc, IsShort;
    dec.Parts(c);
    CodableParts(htdc, htac, du, dc, c);
    CodableIsReady(htdc, htac, du, dc, c);
    var bytes, raw := WriteOneBlock(du, dc, htdc, htac);
    InRaw(raw, BlockBits(htdc, htac, du, dc));
    BlockReadsBack(htdc, htac, c, raw, 0, du, dc);
    var rd := new Reader(bytes);
    data := new int[64];
    ghost var ranOut;
    ok, pred, ranOut := dec.DecodeBlock(rd, data, dc, c);
  }

  lemma {:induction false} InRaw(raw: seq<byte>, bits: seq<bool>)
    requires BitsHere(raw, 0, bits)
    ensures |bits| <= 8 * |raw|
  {
  }

  lemma {:induction false} CodableParts(htdc: CodeTable, htac: CodeTable, du: seq<int>, dc: int, c: Coding)
    requires Codable(htdc, htac, du, dc, c)
    ensures |du| == 64 && Small(du) && Magnitude(du[0] - dc) <= 2047
  {
  }
}
