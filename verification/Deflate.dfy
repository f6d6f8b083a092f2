/** A reference reading of zlib streams (RFC 1950 and section 3.2 of RFC 1951), on bit positions. */
module Deflate {
  import opened Bits
  import opened Canonical
  import opened Options

  // ---- Reading bits; past the end of the input every bit is zero ----

  function BitAt(input: seq<byte>, p: nat): bool {
    p < 8 * |input| && BitsOfBytes(input)[p]
  }

  function Look(input: seq<byte>, at: nat, n: nat): (r: seq<bool>)
    ensures |r| == n
  {
    seq(n, k requires 0 <= k < n => BitAt(input, at + k))
  }

  // ---- Tables ----

  /** Section 3.2.5 of RFC 1951: what length symbol 257 + k and distance symbol k start at, and how many
      extra bits follow. */
  function LengthExtra(k: nat): (r: nat)
    ensures r <= 5
  {
    if k < 8 || k >= 28 then 0 else k / 4 - 1
  }

  function LengthBase(k: nat): (r: nat)
    ensures r >= 3
  {
    if k < 8 then k + 3 else if k >= 28 then 258
    else
      var p := Pow2(k / 4 - 1);
      3 + (if k % 4 == 0 then 4 * p else if k % 4 == 1 then 5 * p else if k % 4 == 2 then 6 * p else 7 * p)
  }

  function DistExtra(k: nat): (r: nat)
    ensures k < 30 ==> r <= 13
  {
    if k < 4 then 0 else k / 2 - 1
  }

  function DistBase(k: nat): (r: nat)
    ensures r >= 1
  {
    if k < 4 then k + 1
    else
      var p := Pow2(k / 2 - 1);
      1 + (if k % 2 == 0 then 2 * p else 3 * p)
  }

  /** The fixed code lengths of section 3.2.6 of RFC 1951. */
  function DefaultLength(i: nat): nat {
    if i <= 143 then 8 else if i <= 255 then 9 else if i <= 279 then 7 else 8
  }

  function DefaultLengths(): (r: seq<nat>)
    ensures |r| == 288 && forall i :: 0 <= i < 288 ==> r[i] == DefaultLength(i)
  {
    seq(288, i requires 0 <= i < 288 => DefaultLength(i))
  }

  function DefaultDistances(): (r: seq<nat>)
    ensures |r| == 32 && forall i :: 0 <= i < 32 ==> r[i] == 5
  {
    seq(32, _ => 5)
  }

  // ---- The reference decoder ----

  datatype Inflated = Inflated(at: nat, out: seq<byte>) | Corrupt

  /** The symbol whose code is next. */
  ghost function Symbol(lens: seq<nat>, input: seq<byte>, at: nat): (r: Option<nat>)
    ensures r.Some? ==> Comes(lens, r.value, Look(input, at, LONGEST))
    ensures r.None? ==> forall i: nat :: !Comes(lens, i, Look(input, at, LONGEST))
  {
    if i: nat :| Comes(lens, i, Look(input, at, LONGEST)) then Some(i) else None
  }

  /** What the two codes spell. */
  datatype Token = Literal(value: byte) | Match(len: nat, dist: nat) | EndOfBlock

  datatype Reading = Read(token: Token, at: nat) | NoToken

  ghost predicate Sensible(r: Reading, at: nat) {
    r.Read? ==> r.at > at && (r.token.Match? ==> r.token.len >= 3 && r.token.dist >= 1)
  }

  /** The token at `at`; a length symbol is followed by extra bits, a distance symbol and its extra bits. */
  ghost function ReadToken(input: seq<byte>, at: nat, lit: seq<nat>, dis: seq<nat>): (r: Reading)
    ensures Sensible(r, at)
  {
    match Symbol(lit, input, at)
    case None => NoToken
    case Some(z) =>
      if z < 256 then Read(Literal(z), at + lit[z])
      else if z == 256 then Read(EndOfBlock, at + lit[z])
      else if z >= 286 then NoToken
      else ReadMatch(input, at + lit[z], z - 257, dis)
  }

  /** A match whose length symbol was 257 + k. */
  ghost function ReadMatch(input: seq<byte>, at: nat, k: nat, dis: seq<nat>): (r: Reading)
    ensures r.Read? ==> r.at > at && r.token.Match? && r.token.len >= 3 && r.token.dist >= 1
  {
    ReadDistance(input, at + LengthExtra(k), LengthBase(k) + Value(Look(input, at, LengthExtra(k))), dis)
  }

  ghost function ReadDistance(input: seq<byte>, at: nat, len: nat, dis: seq<nat>): (r: Reading)
    ensures r.Read? ==> r.at > at && r.token.Match? && r.token.len == len && r.token.dist >= 1
  {
    match Symbol(dis, input, at)
    case None => NoToken
    case Some(d) =>
      if d >= 30 then NoToken
      else
        var at1 := at + dis[d];
        Read(Match(len, DistBase(d) + Value(Look(input, at1, DistExtra(d)))), at1 + DistExtra(d))
  }

  /** Copies `len` bytes from `dist` back; the copy may overlap what it writes. */
  function Copy(out: seq<byte>, dist: nat, len: nat): (r: seq<byte>)
    requires 1 <= dist <= |out|
    ensures |r| == |out| + len
    decreases len
  {
    if len == 0 then out else Copy(out + [out[|out| - dist]], dist, len - 1)
  }

  /** The tokens from `at` on, up to the end of the block. */
  ghost function Codes(input: seq<byte>, at: nat, out: seq<byte>, lit: seq<nat>, dis: seq<nat>, limit: nat): Inflated
    decreases limit + 1 - |out|
  {
    if |out| > limit then Corrupt
    else
      match ReadToken(input, at, lit, dis)
      case NoToken => Corrupt
      case Read(EndOfBlock, next) => Inflated(next, out)
      case Read(Literal(b), next) =>
        if |out| >= limit then Corrupt else Codes(input, next, out + [b], lit, dis, limit)
      case Read(Match(len, dist), next) =>
        if dist > |out| || |out| + len > limit then Corrupt
        else Codes(input, next, Copy(out, dist, len), lit, dis, limit)
  }

  /** A stored block: the next byte boundary, a length and its complement, and the bytes. */
  function Stored(input: seq<byte>, at: nat, out: seq<byte>, limit: nat): (r: Inflated)
    ensures r.Inflated? ==> r.at > at && |r.out| <= limit
  {
    var b := (at + 7) / 8;
    var len := ByteAt(input, b + 1) * 256 + ByteAt(input, b);
    var nlen := ByteAt(input, b + 3) * 256 + ByteAt(input, b + 2);
    if nlen != 65535 - len then Corrupt
    else if len > 0 && b + 4 + len > |input| then Corrupt
    else if |out| + len > limit then Corrupt
    else Inflated(8 * (b + 4 + len), out + if len > 0 then input[b + 4..b + 4 + len] else [])
  }

  // ---- Codes that a block brings along, section 3.2.7 of RFC 1951 ----

  /** The order in which the lengths of the code-length code come. */
  const LENGTH_ORDER: seq<nat> := [16, 17, 18, 0, 8, 7, 9, 6, 10, 5, 11, 4, 12, 3, 13, 2, 14, 1, 15]

  /** The code-length code's lengths when `k` of them are given, three bits each. */
  function ShortLengths(input: seq<byte>, at: nat, k: nat): (r: seq<nat>)
    requires k <= 19
    ensures |r| == 19 && forall i :: 0 <= i < 19 ==> r[i] < 16
  {
    if k == 0 then seq(19, _ => 0)
    else ShortLengths(input, at, k - 1)[LENGTH_ORDER[k - 1] := ThreeBits(input, at + 3 * (k - 1))]
  }

  function ThreeBits(input: seq<byte>, at: nat): (r: nat)
    ensures r < 8
  {
    assert Pow2(3) == 8 by { Pow2Values(); }
    Value(Look(input, at, 3))
  }

  /** Symbols 16 to 18 repeat the previous length or zero; how often is in extra bits. */
  function RepeatBits(c: nat): nat { if c == 16 then 2 else if c == 17 then 3 else 7 }

  function Repeats(input: seq<byte>, at: nat, c: nat): (r: nat)
    ensures r >= 3
  {
    (if c == 18 then 11 else 3) + Value(Look(input, at, RepeatBits(c)))
  }

  function RepeatOf(c: nat, lens: seq<nat>, n: nat): (r: seq<nat>)
    requires c == 16 ==> lens != []
    ensures |r| == n
  {
    seq(n, _ => if c == 16 then lens[|lens| - 1] else 0)
  }

  datatype LengthList = Lengths(lens: seq<nat>, at: nat) | BadLengths

  /** Code lengths until there are `total`, written in the code `cl`; `lens` are there already. */
  ghost function ReadLengths(input: seq<byte>, at: nat, cl: seq<nat>, total: nat, lens: seq<nat>): (r: LengthList)
    ensures r.Lengths? ==> r.at >= at && |r.lens| == total
    ensures r.Lengths? && (forall i :: 0 <= i < |lens| ==> lens[i] < 16) ==> forall i :: 0 <= i < |r.lens| ==> r.lens[i] < 16
    decreases total - |lens|
  {
    if |lens| >= total then if |lens| == total then Lengths(lens, at) else BadLengths
    else
      match Symbol(cl, input, at)
      case None => BadLengths
      case Some(c) =>
        var next := at + cl[c];
        if c < 16 then ReadLengths(input, next, cl, total, lens + [c])
        else if c == 16 && lens == [] then BadLengths
        else
          var n := Repeats(input, next, c);
          if |lens| + n > total then BadLengths
          else ReadLengths(input, next + RepeatBits(c), cl, total, lens + RepeatOf(c, lens, n))
  }

  datatype Tables = Tables(lit: seq<nat>, dis: seq<nat>, at: nat) | NoTables

  /** The two codes at the start of a block. */
  ghost function ReadTables(input: seq<byte>, at: nat): (r: Tables)
    ensures r.Tables? ==> r.at >= at
  {
    var hlit, hdist := Value(Look(input, at, 5)) + 257, Value(Look(input, at + 5, 5)) + 1;
    var hclen := FourBits(input, at + 10) + 4;
    var cl := ShortLengths(input, at + 14, hclen);
    if !Accepted(cl) then NoTables
    else CutTables(ReadLengths(input, at + 14 + 3 * hclen, cl, hlit + hdist, []), hlit)
  }

  function FourBits(input: seq<byte>, at: nat): (r: nat)
    ensures r < 16
  {
    assert Pow2(4) == 16 by { Pow2Values(); }
    Value(Look(input, at, 4))
  }

  /** The list falls into literal and distance lengths. */
  function CutTables(r: LengthList, hlit: nat): Tables
    requires r.Lengths? ==> hlit <= |r.lens|
  {
    match r
    case BadLengths => NoTables
    case Lengths(lens, at) =>
      if Accepted(lens[..hlit]) && Accepted(lens[hlit..]) then Tables(lens[..hlit], lens[hlit..], at) else NoTables
  }

  ghost function Dynamic(input: seq<byte>, at: nat, out: seq<byte>, limit: nat): Inflated {
    match ReadTables(input, at)
    case NoTables => Corrupt
    case Tables(lit, dis, next) => Codes(input, next, out, lit, dis, limit)
  }

  ghost function Block(input: seq<byte>, at: nat, out: seq<byte>, limit: nat): Inflated {
    var kind := Value(Look(input, at + 1, 2));
    if kind == 0 then Stored(input, at + 3, out, limit)
    else if kind == 1 then Codes(input, at + 3, out, DefaultLengths(), DefaultDistances(), limit)
    else if kind == 2 then Dynamic(input, at + 3, out, limit)
    else Corrupt
  }

  /** Blocks up to the final one.  A block that starts past the end reads only zeros and is corrupt. */
  ghost function Blocks(input: seq<byte>, at: nat, out: seq<byte>, limit: nat): Inflated
    decreases 8 * |input| - at
  {
    if at >= 8 * |input| then Corrupt
    else
      var r := Block(input, at, out, limit);
      if !r.Inflated? || BitAt(input, at) then r
      else BlockAdvances(input, at, out, limit); Blocks(input, r.at, r.out, limit)
  }

  lemma {:induction false} CodesAdvance(input: seq<byte>, at: nat, out: seq<byte>, lit: seq<nat>, dis: seq<nat>, limit: nat)
    requires Codes(input, at, out, lit, dis, limit).Inflated?
    ensures Codes(input, at, out, lit, dis, limit).at >= at
    ensures |out| <= |Codes(input, at, out, lit, dis, limit).out| <= limit
    decreases limit + 1 - |out|
  {
    match ReadToken(input, at, lit, dis)
    case Read(EndOfBlock, next) =>
    case Read(Literal(b), next) => CodesAdvance(input, next, out + [b], lit, dis, limit);
    case Read(Match(len, dist), next) => CodesAdvance(input, next, Copy(out, dist, len), lit, dis, limit);
  }

  lemma {:induction false} BlockAdvances(input: seq<byte>, at: nat, out: seq<byte>, limit: nat)
    requires Block(input, at, out, limit).Inflated?
    ensures Block(input, at, out, limit).at > at
    ensures |Block(input, at, out, limit).out| <= limit
  {
    if Value(Look(input, at + 1, 2)) == 1 {
      CodesAdvance(input, at + 3, out, DefaultLengths(), DefaultDistances(), limit);
    } else if Value(Look(input, at + 1, 2)) == 2 {
      var tables := ReadTables(input, at + 3);
      CodesAdvance(input, tables.at, out, tables.lit, tables.dis, limit);
    }
  }

  /** The two header bytes: deflate, no preset dictionary, check bits, and more input to come. */
  predicate HeaderOk(input: seq<byte>) {
    var cmf, flg := ByteAt(input, 0), ByteAt(input, 1);
    |input| > 2 && (cmf * 256 + flg) % 31 == 0 && (flg / 32) % 2 == 0 && cmf % 16 == 8
  }

  /** What a zlib stream stands for, when it fits in `limit` bytes. */
  ghost function Zlib(input: seq<byte>, limit: nat): Inflated {
    if HeaderOk(input) then Blocks(input, 16, [], limit) else Corrupt
  }

  // ---- Bits, bytes and symbols ----

  lemma {:induction false} LookByte(input: seq<byte>, p: nat)
    ensures Look(input, 8 * p, 8) == BitsOf(ByteAt(input, p), 8)
  {
    hide BitsOf, BitsOfBytes, BitAt;
    var w, b := Look(input, 8 * p, 8), BitsOf(ByteAt(input, p), 8);
    forall k | 0 <= k < 8 ensures w[k] == b[k] {
      assert w[k] == BitAt(input, 8 * p + k);
      BitOfByteAt(input, p, k);
    }
  }

  lemma {:induction false} BitOfByteAt(input: seq<byte>, p: nat, k: nat)
    requires k < 8
    ensures BitAt(input, 8 * p + k) == BitsOf(ByteAt(input, p), 8)[k]
  {
    hide BitsOf;
    if p < |input| { BitsOfByte(input, p, k); } else { BitsOfZero(8); }
  }

  lemma {:induction false} LookConcat(input: seq<byte>, at: nat, m: nat, n: nat)
    ensures Look(input, at, m + n) == Look(input, at, m) + Look(input, at + m, n)
  {
    hide BitAt;
    var a, b, w := Look(input, at, m), Look(input, at + m, n), Look(input, at, m + n);
    forall k | 0 <= k < m + n ensures w[k] == (a + b)[k] {
      if k >= m { assert b[k - m] == BitAt(input, at + m + (k - m)); }
    }
  }

  lemma {:induction false} SymbolIs(lens: seq<nat>, input: seq<byte>, at: nat, w: seq<bool>, i: nat)
    requires Accepted(lens) && w == Look(input, at, LONGEST) && Comes(lens, i, w)
    ensures Symbol(lens, input, at) == Some(i)
  {
    var s := Symbol(lens, input, at);
    assert s.Some?;
    PrefixFree(lens, i, s.value, w);
  }

  lemma {:induction false} NoSymbol(lens: seq<nat>, input: seq<byte>, at: nat, w: seq<bool>)
    requires w == Look(input, at, LONGEST) && forall i: nat :: !Comes(lens, i, w)
    ensures Symbol(lens, input, at).None?
  {
  }
}
