/** The bits that stand for a list of literals and matches in a block, and what the reference decoder makes of
    them. */
module ZEncoding {
  import opened Bits
  import opened Canonical
  import opened Deflate
  import opened FixedCodes
  import opened Options

  /** What an encoder may put in a block. */
  predicate Encodable(t: Token) {
    match t
    case Literal(_) => true
    case Match(len, dist) => 3 <= len <= 258 && 1 <= dist <= 32768
    case EndOfBlock => true
  }

  /** The length symbol, less 257, an encoder looks up: the last whose base is not above `len`. */
  function LengthIndex(len: nat, j: nat): (r: nat)
    requires j <= 28
    ensures r <= 28
    decreases 28 - j
  {
    if j == 28 || len < LengthBase(j + 1) then j else LengthIndex(len, j + 1)
  }

  function DistIndex(dist: nat, j: nat): (r: nat)
    requires j <= 29
    ensures r <= 29
    decreases 29 - j
  {
    if j == 29 || dist < DistBase(j + 1) then j else DistIndex(dist, j + 1)
  }

  lemma {:induction false} LengthStep(j: nat)
    requires j < 28
    ensures LengthBase(j + 1) <= LengthBase(j) + Pow2(LengthExtra(j))
  {
    if j >= 8 {
      assert j % 4 == 3 ==> (j + 1) / 4 == j / 4 + 1 && (j + 1) % 4 == 0;
      assert j % 4 != 3 ==> (j + 1) / 4 == j / 4 && (j + 1) % 4 == j % 4 + 1;
      if j == 27 { Pow2Values(); }
    }
  }

  lemma {:induction false} DistStep(j: nat)
    requires j < 29
    ensures DistBase(j + 1) == DistBase(j) + Pow2(DistExtra(j))
  {
    if j >= 4 {
      assert j % 2 == 1 ==> (j + 1) / 2 == j / 2 + 1 && (j + 1) % 2 == 0;
      assert j % 2 == 0 ==> (j + 1) / 2 == j / 2 && (j + 1) % 2 == 1;
    }
  }

  /** The rest of the length fits in the symbol's extra bits. */
  lemma {:induction false} LengthFits(len: nat, j: nat)
    requires j <= 28 && LengthBase(j) <= len <= 258
    ensures var r := LengthIndex(len, j); LengthBase(r) <= len < LengthBase(r) + Pow2(LengthExtra(r))
    decreases 28 - j
  {
    if j < 28 {
      LengthStep(j);
      if len >= LengthBase(j + 1) { LengthFits(len, j + 1); }
    }
  }

  lemma {:induction false} DistFits(dist: nat, j: nat)
    requires j <= 29 && DistBase(j) <= dist <= 32768
    ensures var r := DistIndex(dist, j); DistBase(r) <= dist < DistBase(r) + Pow2(DistExtra(r))
    decreases 29 - j
  {
    if j < 29 {
      DistStep(j);
      if dist >= DistBase(j + 1) { DistFits(dist, j + 1); }
    } else {
      Pow2Values();
    }
  }

  lemma {:induction false} LengthIndexFits(len: nat)
    requires 3 <= len <= 258
    ensures var r := LengthIndex(len, 0); LengthBase(r) <= len < LengthBase(r) + Pow2(LengthExtra(r))
  {
    LengthFits(len, 0);
  }

  lemma {:induction false} DistIndexFits(dist: nat)
    requires 1 <= dist <= 32768
    ensures var r := DistIndex(dist, 0); DistBase(r) <= dist < DistBase(r) + Pow2(DistExtra(r))
  {
    DistFits(dist, 0);
  }

  /** The symbol has a code. */
  predicate HasCode(lens: seq<nat>, i: nat) { i < |lens| && lens[i] > 0 }

  /** The two codes have what the token needs. */
  predicate Spells(t: Token, lit: seq<nat>, dis: seq<nat>) {
    match t
    case Literal(b) => HasCode(lit, b)
    case Match(len, dist) => HasCode(lit, 257 + LengthIndex(len, 0)) && HasCode(dis, DistIndex(dist, 0))
    case EndOfBlock => HasCode(lit, 256)
  }

  /** Length symbol and extra bits. */
  function LengthBitsIn(len: nat, lit: seq<nat>): seq<bool>
    requires len >= 3 && HasCode(lit, 257 + LengthIndex(len, 0))
  {
    LengthFloor(len, 0);
    var j := LengthIndex(len, 0);
    CodeBits(lit, 257 + j) + BitsOf(len - LengthBase(j), LengthExtra(j))
  }

  function DistBitsIn(dist: nat, dis: seq<nat>): seq<bool>
    requires dist >= 1 && HasCode(dis, DistIndex(dist, 0))
  {
    DistFloor(dist, 0);
    var j := DistIndex(dist, 0);
    CodeBits(dis, j) + BitsOf(dist - DistBase(j), DistExtra(j))
  }

  function LengthBits(len: nat): seq<bool>
    requires len >= 3
  {
    LengthBitsIn(len, DefaultLengths())
  }

  function DistBits(dist: nat): seq<bool>
    requires dist >= 1
  {
    DistBitsIn(dist, DefaultDistances())
  }

  lemma {:induction false} LengthFloor(len: nat, j: nat)
    requires j <= 28 && LengthBase(j) <= len
    ensures LengthBase(LengthIndex(len, j)) <= len
    decreases 28 - j
  {
    if j < 28 && len >= LengthBase(j + 1) { LengthFloor(len, j + 1); }
  }

  lemma {:induction false} DistFloor(dist: nat, j: nat)
    requires j <= 29 && DistBase(j) <= dist
    ensures DistBase(DistIndex(dist, j)) <= dist
    decreases 29 - j
  {
    if j < 29 && dist >= DistBase(j + 1) { DistFloor(dist, j + 1); }
  }

  function TokenBitsIn(t: Token, lit: seq<nat>, dis: seq<nat>): seq<bool>
    requires Encodable(t) && Spells(t, lit, dis)
  {
    match t
    case Literal(b) => CodeBits(lit, b)
    case Match(len, dist) => LengthBitsIn(len, lit) + DistBitsIn(dist, dis)
    case EndOfBlock => CodeBits(lit, 256)
  }

  /** The token's bits in the fixed codes. */
  function TokenBits(t: Token): seq<bool>
    requires Encodable(t)
  {
    DefaultsSpell(t);
    TokenBitsIn(t, DefaultLengths(), DefaultDistances())
  }

  lemma {:induction false} MatchBits(len: nat, dist: nat)
    requires Encodable(Match(len, dist))
    ensures TokenBits(Match(len, dist)) == LengthBits(len) + DistBits(dist)
  {
    hide LengthBitsIn, DistBitsIn;
    DefaultsSpell(Match(len, dist));
  }

  lemma {:induction false} DefaultsSpell(t: Token)
    ensures Spells(t, DefaultLengths(), DefaultDistances())
  {
  }

  /** The input has these bits at `at`. */
  ghost predicate BitsHere(input: seq<byte>, at: nat, bits: seq<bool>) {
    at + |bits| <= 8 * |input| && Look(input, at, |bits|) == bits
  }

  lemma {:induction false} BitsHereSplit(input: seq<byte>, at: nat, a: seq<bool>, b: seq<bool>)
    ensures BitsHere(input, at, a + b) <==> BitsHere(input, at, a) && BitsHere(input, at + |a|, b)
  {
    LookConcat(input, at, |a|, |b|);
    var w, v := Look(input, at, |a|), Look(input, at + |a|, |b|);
    if w + v == a + b { assert (w + v)[..|a|] == w && (a + b)[..|a|] == a && (w + v)[|a|..] == v && (a + b)[|a|..] == b; }
  }

  lemma {:induction false} SymbolHere(lens: seq<nat>, input: seq<byte>, at: nat, i: nat)
    requires Accepted(lens) && i < |lens| && lens[i] > 0 && BitsHere(input, at, CodeBits(lens, i))
    ensures Symbol(lens, input, at) == Some(i)
  {
    var w := Look(input, at, LONGEST);
    LookConcat(input, at, lens[i], LONGEST - lens[i]);
    assert w[..lens[i]] == CodeBits(lens, i);
    SymbolIs(lens, input, at, w, i);
  }

  lemma {:induction false} ExtraHere(input: seq<byte>, at: nat, v: nat, n: nat)
    requires v < Pow2(n) && BitsHere(input, at, BitsOf(v, n))
    ensures Value(Look(input, at, n)) == v
  {
    ValueOfBits(v, n);
  }

  lemma {:induction false} DistanceReadsBack(input: seq<byte>, at: nat, len: nat, dist: nat, dis: seq<nat>)
    requires 1 <= dist <= 32768 && Accepted(dis) && HasCode(dis, DistIndex(dist, 0))
    requires BitsHere(input, at, DistBitsIn(dist, dis))
    ensures ReadDistance(input, at, len, dis) == Read(Match(len, dist), at + |DistBitsIn(dist, dis)|)
  {
    hide Accepted, BitsHere, BitsOf, CodeBits, DistBase, DistExtra, DistIndex, Look, Pow2, Value;
    DistIndexFits(dist);
    var j := DistIndex(dist, 0);
    BitsHereSplit(input, at, CodeBits(dis, j), BitsOf(dist - DistBase(j), DistExtra(j)));
    SymbolHere(dis, input, at, j);
    ExtraHere(input, at + dis[j], dist - DistBase(j), DistExtra(j));
  }

  lemma {:induction false} LengthReadsBack(input: seq<byte>, at: nat, len: nat, j: nat, dist: nat, dis: seq<nat>)
    requires 3 <= len <= 258 && 1 <= dist <= 32768 && j == LengthIndex(len, 0) && LengthBase(j) <= len
    requires Accepted(dis) && HasCode(dis, DistIndex(dist, 0))
    requires BitsHere(input, at, BitsOf(len - LengthBase(j), LengthExtra(j)))
    requires BitsHere(input, at + LengthExtra(j), DistBitsIn(dist, dis))
    ensures ReadMatch(input, at, j, dis) == Read(Match(len, dist), at + LengthExtra(j) + |DistBitsIn(dist, dis)|)
  {
    hide Accepted, BitsHere, BitsOf, DistBitsIn, LengthBase, LengthExtra, LengthIndex, Look, Pow2, Value, ReadDistance;
    LengthIndexFits(len);
    ExtraHere(input, at, len - LengthBase(j), LengthExtra(j));
    DistanceReadsBack(input, at + LengthExtra(j), len, dist, dis);
  }

  lemma {:induction false} MatchReadsBack(input: seq<byte>, at: nat, len: nat, dist: nat, lit: seq<nat>, dis: seq<nat>)
    requires 3 <= len <= 258 && 1 <= dist <= 32768 && Accepted(lit) && Accepted(dis) && Spells(Match(len, dist), lit, dis)
    requires BitsHere(input, at, LengthBitsIn(len, lit) + DistBitsIn(dist, dis))
    ensures ReadToken(input, at, lit, dis) == Read(Match(len, dist), at + |LengthBitsIn(len, lit)| + |DistBitsIn(dist, dis)|)
  {
    hide Accepted, BitsHere, BitsOf, CodeBits, DistBitsIn, LengthBase, LengthExtra, LengthIndex, Look, Pow2, Value;
    hide ReadMatch;
    LengthIndexFits(len);
    var j := LengthIndex(len, 0);
    BitsHereSplit(input, at, LengthBitsIn(len, lit), DistBitsIn(dist, dis));
    BitsHereSplit(input, at, CodeBits(lit, 257 + j), BitsOf(len - LengthBase(j), LengthExtra(j)));
    SymbolHere(lit, input, at, 257 + j);
    LengthReadsBack(input, at + lit[257 + j], len, j, dist, dis);
  }

  /** With any two accepted codes the decoder reads every token back from its bits. */
  lemma {:induction false} TokenReadsBack(input: seq<byte>, at: nat, t: Token, lit: seq<nat>, dis: seq<nat>)
    requires Encodable(t) && Accepted(lit) && Accepted(dis) && Spells(t, lit, dis)
    requires BitsHere(input, at, TokenBitsIn(t, lit, dis))
    ensures ReadToken(input, at, lit, dis) == Read(t, at + |TokenBitsIn(t, lit, dis)|)
  {
    hide Accepted, BitsHere, CodeBits, LengthBitsIn, DistBitsIn, Look, ReadDistance, ReadMatch;
    match t
    case Literal(b) => SymbolHere(lit, input, at, b);
    case Match(len, dist) => MatchReadsBack(input, at, len, dist, lit, dis);
    case EndOfBlock => SymbolHere(lit, input, at, 256);
  }

  // ---- Lists of tokens ----

  /** The tokens can be sent in the two codes. */
  predicate AllSpelled(ts: seq<Token>, lit: seq<nat>, dis: seq<nat>) { forall t <- ts :: Encodable(t) && Spells(t, lit, dis) }

  function AllBitsIn(ts: seq<Token>, lit: seq<nat>, dis: seq<nat>): seq<bool>
    requires AllSpelled(ts, lit, dis)
  {
    if ts == [] then [] else TokenBitsIn(ts[0], lit, dis) + AllBitsIn(ts[1..], lit, dis)
  }

  function AllBits(ts: seq<Token>): seq<bool>
    requires forall t <- ts :: Encodable(t)
  {
    if ts == [] then [] else TokenBits(ts[0]) + AllBits(ts[1..])
  }

  lemma {:induction false} AllBitsAre(ts: seq<Token>)
    requires forall t <- ts :: Encodable(t)
    ensures AllSpelled(ts, DefaultLengths(), DefaultDistances())
    ensures AllBits(ts) == AllBitsIn(ts, DefaultLengths(), DefaultDistances())
  {
    hide DefaultLengths, DefaultDistances, TokenBitsIn, Spells;
    forall t <- ts ensures Spells(t, DefaultLengths(), DefaultDistances()) { DefaultsSpell(t); }
    if ts != [] { AllBitsAre(ts[1..]); }
  }

  lemma {:induction false} AllBitsConcat(a: seq<Token>, b: seq<Token>)
    requires (forall t <- a :: Encodable(t)) && (forall t <- b :: Encodable(t))
    ensures AllBits(a + b) == AllBits(a) + AllBits(b)
  {
    if a == [] {
      assert a + b == b;
    } else {
      assert (a + b)[1..] == a[1..] + b;
      AllBitsConcat(a[1..], b);
    }
  }

  /** The tokens are literals and matches that reach no further back than the output. */
  predicate Sound(ts: seq<Token>, out: seq<byte>) {
    ts == [] || (Encodable(ts[0]) && !ts[0].EndOfBlock? && (ts[0].Match? ==> ts[0].dist <= |out|)
                 && Sound(ts[1..], Put(out, ts[0])))
  }

  function Put(out: seq<byte>, t: Token): (r: seq<byte>)
    requires t.Match? ==> 1 <= t.dist <= |out|
    ensures |r| >= |out|
  {
    match t
    case Literal(b) => out + [b]
    case Match(len, dist) => Copy(out, dist, len)
    case EndOfBlock => out
  }

  function Expand(ts: seq<Token>, out: seq<byte>): (r: seq<byte>)
    requires Sound(ts, out)
    ensures |r| >= |out|
  {
    if ts == [] then out else Expand(ts[1..], Put(out, ts[0]))
  }

  lemma {:induction false} SoundIsEncodable(ts: seq<Token>, out: seq<byte>)
    requires Sound(ts, out)
    ensures forall t <- ts :: Encodable(t)
  {
    if ts != [] { SoundIsEncodable(ts[1..], Put(out, ts[0])); assert ts == [ts[0]] + ts[1..]; }
  }

  lemma {:induction false} SoundAppend(ts: seq<Token>, out: seq<byte>, t: Token)
    requires Sound(ts, out) && Sound([t], Expand(ts, out))
    ensures Sound(ts + [t], out) && Expand(ts + [t], out) == Put(Expand(ts, out), t)
  {
    if ts == [] {
      assert ts + [t] == [t];
    } else {
      assert (ts + [t])[1..] == ts[1..] + [t];
      SoundAppend(ts[1..], Put(out, ts[0]), t);
    }
  }

  /** With any two accepted codes the decoder turns the bits of a block back into the bytes its tokens stand for. */
  lemma {:induction false} CodesReadBack(input: seq<byte>, at: nat, ts: seq<Token>, out: seq<byte>, lit: seq<nat>, dis: seq<nat>, limit: nat)
    requires Sound(ts, out) && AllSpelled(ts, lit, dis) && HasCode(lit, 256) && Accepted(lit) && Accepted(dis)
    requires |Expand(ts, out)| <= limit && BitsHere(input, at, AllBitsIn(ts, lit, dis) + CodeBits(lit, 256))
    ensures Codes(input, at, out, lit, dis, limit) == Inflated(at + |AllBitsIn(ts, lit, dis)| + lit[256], Expand(ts, out))
    decreases |ts|
  {
    hide BitsHere, Accepted, Look, TokenBitsIn, ReadToken, Copy, Spells, CodeBits;
    var stop := CodeBits(lit, 256);
    if ts == [] {
      assert AllBitsIn(ts, lit, dis) + stop == stop;
      EndReadsBack(input, at, lit, dis);
    } else {
      var t, bits, rest := ts[0], TokenBitsIn(ts[0], lit, dis), AllBitsIn(ts[1..], lit, dis);
      assert AllBitsIn(ts, lit, dis) + stop == bits + (rest + stop);
      BitsHereSplit(input, at, bits, rest + stop);
      TokenReadsBack(input, at, t, lit, dis);
      CodesReadBack(input, at + |bits|, ts[1..], Put(out, t), lit, dis, limit);
    }
  }

  lemma {:induction false} EndReadsBack(input: seq<byte>, at: nat, lit: seq<nat>, dis: seq<nat>)
    requires HasCode(lit, 256) && Accepted(lit) && Accepted(dis) && BitsHere(input, at, CodeBits(lit, 256))
    ensures ReadToken(input, at, lit, dis) == Read(EndOfBlock, at + lit[256])
  {
    hide BitsHere, Accepted, Look, ReadToken, CodeBits;
    TokenReadsBack(input, at, EndOfBlock, lit, dis);
  }

  /** The same for a block of the fixed codes. */
  lemma {:induction false} BlockReadsBack(input: seq<byte>, at: nat, ts: seq<Token>, out: seq<byte>, limit: nat)
    requires Sound(ts, out) && (forall t <- ts :: Encodable(t)) && |Expand(ts, out)| <= limit
    requires BitsHere(input, at, AllBits(ts) + TokenBits(EndOfBlock))
    ensures Codes(input, at, out, DefaultLengths(), DefaultDistances(), limit)
         == Inflated(at + |AllBits(ts)| + |TokenBits(EndOfBlock)|, Expand(ts, out))
  {
    hide BitsHere, Accepted, DefaultLengths, DefaultDistances, AllBits, AllBitsIn, Codes, CodeBits, AllSpelled, Sound, Expand;
    DefaultsAccepted();
    AllBitsAre(ts);
    DefaultsSpell(EndOfBlock);
    CodesReadBack(input, at, ts, out, DefaultLengths(), DefaultDistances(), limit);
  }
}
