/** Streams of any blocks at all, and what is no stream. */
module ZStreams {
  import opened Arithmetic
  import opened Bits
  import opened Canonical
  import opened Deflate
  import opened DynamicBlocks
  import opened ZEncoding

  // ---- Any blocks ----

  /** Bytes as they are, tokens in the fixed codes, or codes and tokens in them. */
  datatype AnyBlock = Verbatim(bytes: seq<byte>) | Fixed(ts: seq<Token>) | Own(block: DynamicBlock)

  function KindOf(b: AnyBlock): nat { if b.Verbatim? then 0 else if b.Fixed? then 1 else 2 }

  /** The block can follow what is there. */
  ghost predicate Fits(b: AnyBlock, out: seq<byte>) {
    match b
    case Verbatim(bytes) => |bytes| < 65536
    case Fixed(ts) => Sound(ts, out) && forall t <- ts :: Encodable(t)
    case Own(block) => block.Valid(out)
  }

  ghost function BytesAfter(b: AnyBlock, out: seq<byte>): seq<byte>
    requires Fits(b, out)
  {
    match b
    case Verbatim(bytes) => out + bytes
    case Fixed(ts) => Expand(ts, out)
    case Own(block) => Expand(block.ts, out)
  }

  /** The input has the block's contents at `at`; plain bytes start at the next byte boundary, after their number
      and its complement. */
  ghost predicate ContentsHere(input: seq<byte>, at: nat, b: AnyBlock, out: seq<byte>)
    requires Fits(b, out)
  {
    match b
    case Verbatim(bytes) =>
      var k, n := (at + 7) / 8, |bytes|;
      k + 4 + n <= |input| && input[k..k + 4 + n] == [n % 256, n / 256, 255 - n % 256, 255 - n / 256] + bytes
    case Fixed(ts) => BitsHere(input, at, AllBits(ts) + TokenBits(EndOfBlock))
    case Own(block) => BitsHere(input, at, block.TableBits() + block.TokensBits())
  }

  ghost function EndOf(at: nat, b: AnyBlock, out: seq<byte>): nat
    requires Fits(b, out)
  {
    match b
    case Verbatim(bytes) => 8 * ((at + 7) / 8 + 4 + |bytes|)
    case Fixed(ts) => at + |AllBits(ts)| + |TokenBits(EndOfBlock)|
    case Own(block) => at + |block.TableBits()| + |block.TokensBits()|
  }

  lemma {:induction false} VerbatimReadsBack(input: seq<byte>, at: nat, bytes: seq<byte>, out: seq<byte>, limit: nat)
    requires Fits(Verbatim(bytes), out) && ContentsHere(input, at, Verbatim(bytes), out) && |out| + |bytes| <= limit
    ensures Stored(input, at, out, limit) == Inflated(EndOf(at, Verbatim(bytes), out), out + bytes)
  {
    var k, n := (at + 7) / 8, |bytes|;
    var head := [n % 256, n / 256, 255 - n % 256, 255 - n / 256];
    var all := input[k..k + 4 + n];
    assert all[0] == input[k] && all[1] == input[k + 1] && all[2] == input[k + 2] && all[3] == input[k + 3];
    assert all == head + bytes && all[0] == head[0] && all[1] == head[1] && all[2] == head[2] && all[3] == head[3];
    assert input[k + 4..k + 4 + n] == all[4..] == bytes;
  }

  /** Every block is read back. */
  lemma {:induction false} AnyReadsBack(input: seq<byte>, at: nat, b: AnyBlock, out: seq<byte>, limit: nat)
    requires Fits(b, out) && |BytesAfter(b, out)| <= limit
    requires Value(Look(input, at + 1, 2)) == KindOf(b) && ContentsHere(input, at + 3, b, out)
    ensures Block(input, at, out, limit) == Inflated(EndOf(at + 3, b, out), BytesAfter(b, out))
  {
    hide BitsHere, Look, Value, Codes, Sound, Expand, AllBits, TokenBits, Encodable, Stored, Dynamic, DefaultLengths, DefaultDistances,
         DynamicBlock.Valid, DynamicBlock.TableBits, DynamicBlock.TokensBits;
    match b
    case Verbatim(bytes) => VerbatimReadsBack(input, at + 3, bytes, out, limit);
    case Fixed(ts) => BlockReadsBack(input, at + 3, ts, out, limit);
    case Own(block) => block.ReadsBack(input, at, out, limit);
  }

  /** The blocks follow each other, only the last is marked as the last, and `all` is what they come to. */
  ghost predicate StreamHere(input: seq<byte>, at: nat, bs: seq<AnyBlock>, out: seq<byte>, all: seq<byte>)
    decreases |bs|
  {
    && bs != [] && Fits(bs[0], out) && at < 8 * |input|
    && BitAt(input, at) == (|bs| == 1) && Value(Look(input, at + 1, 2)) == KindOf(bs[0]) && ContentsHere(input, at + 3, bs[0], out)
    && if |bs| == 1 then BytesAfter(bs[0], out) == all
       else StreamHere(input, EndOf(at + 3, bs[0], out), bs[1..], BytesAfter(bs[0], out), all)
  }

  lemma {:induction false} Longer(b: AnyBlock, out: seq<byte>)
    requires Fits(b, out)
    ensures |BytesAfter(b, out)| >= |out|
  {
  }

  lemma {:induction false} Grows(input: seq<byte>, at: nat, bs: seq<AnyBlock>, out: seq<byte>, all: seq<byte>)
    requires StreamHere(input, at, bs, out, all)
    ensures |BytesAfter(bs[0], out)| <= |all|
    decreases |bs|
  {
    hide Look, Value, Fits, ContentsHere, BytesAfter, EndOf, BitAt;
    if |bs| > 1 {
      Grows(input, EndOf(at + 3, bs[0], out), bs[1..], BytesAfter(bs[0], out), all);
      Longer(bs[1], BytesAfter(bs[0], out));
    }
  }

  /** Blocks of any kinds, in any number, decode to all their bytes. */
  lemma {:induction false} BlocksReadBack(input: seq<byte>, at: nat, bs: seq<AnyBlock>, out: seq<byte>, all: seq<byte>, limit: nat)
    requires StreamHere(input, at, bs, out, all) && |all| <= limit
    ensures Blocks(input, at, out, limit).Inflated? && Blocks(input, at, out, limit).out == all
    decreases |bs|
  {
    hide Look, Value, Block, Fits, ContentsHere, BytesAfter, EndOf, BitAt;
    Grows(input, at, bs, out, all);
    AnyReadsBack(input, at, bs[0], out, limit);
    if |bs| > 1 { BlocksReadBack(input, EndOf(at + 3, bs[0], out), bs[1..], BytesAfter(bs[0], out), all, limit); }
  }

  /** So does a whole stream. */
  lemma {:induction false} StreamReadsBack(input: seq<byte>, bs: seq<AnyBlock>, all: seq<byte>, limit: nat)
    requires HeaderOk(input) && StreamHere(input, 16, bs, [], all) && |all| <= limit
    ensures Zlib(input, limit).Inflated? && Zlib(input, limit).out == all
  {
    hide HeaderOk, StreamHere, Blocks;
    BlocksReadBack(input, 16, bs, [], all, limit);
  }

  // ---- What is refused ----

  /** Two bytes that say deflate (8 in the low four bits of the first), whatever window, no preset dictionary (bit
      five of the second), and as a big-endian number a multiple of 31; and a byte to follow. */
  lemma {:induction false} HeaderIff(input: seq<byte>)
    ensures HeaderOk(input) <==> |input| >= 3 && exists window, level, check :: IsHeader(input[0], input[1], window, level, check)
  {
    hide IsHeader;
    if |input| >= 3 {
      BytesAre(input);
      if HeaderOk(input) {
        HeaderParts(input[0], input[1]);
      } else if window, level, check :| IsHeader(input[0], input[1], window, level, check) {
        HeaderFromParts(input[0], input[1], window, level, check);
      }
    }
  }

  lemma {:induction false} BytesAre(input: seq<byte>)
    requires |input| >= 3
    ensures ByteAt(input, 0) == input[0] && ByteAt(input, 1) == input[1]
  {
  }

  lemma {:induction false} HeaderParts(cmf: byte, flg: byte)
    requires (cmf as int * 256 + flg as int) % 31 == 0 && (flg / 32) % 2 == 0 && cmf % 16 == 8
    ensures IsHeader(cmf, flg, cmf as int / 16, flg as int / 64, flg as int % 64)
  {
    var f := flg as int;
    Remainder(f, f / 32 / 2, f % 32, 64);
  }

  lemma {:induction false} HeaderFromParts(cmf: byte, flg: byte, window: int, level: int, check: int)
    requires IsHeader(cmf, flg, window, level, check)
    ensures (cmf as int * 256 + flg as int) % 31 == 0 && (flg / 32) % 2 == 0 && cmf % 16 == 8
  {
    Remainder(cmf as int, window, 8, 16);
    Remainder(flg as int, 2 * level, check, 32);
    Multiple(level, 2);
  }

  predicate IsHeader(cmf: byte, flg: byte, window: int, level: int, check: int) {
    && 0 <= window < 16 && 0 <= level < 4 && 0 <= check < 32
    && cmf as int == 16 * window + 8 && flg as int == 64 * level + check && (256 * cmf as int + flg as int) % 31 == 0
  }

  lemma {:induction false} BadHeaderIsRefused(input: seq<byte>, limit: nat)
    requires !HeaderOk(input)
    ensures Zlib(input, limit) == Corrupt
  {
  }

  /** Two bytes, and two whose bits are all the others. */
  predicate Complement(input: seq<byte>, k: nat) {
    ByteAt(input, k) as int + ByteAt(input, k + 2) as int == 255 && ByteAt(input, k + 1) as int + ByteAt(input, k + 3) as int == 255
  }

  /** The third kind of block is reserved, and the number of plain bytes must agree with its complement. */
  lemma {:induction false} BlockIsRefused(input: seq<byte>, at: nat, out: seq<byte>, limit: nat)
    requires var kind := Value(Look(input, at + 1, 2)); kind >= 3 || (kind == 0 && !Complement(input, (at + 3 + 7) / 8))
    ensures Block(input, at, out, limit) == Corrupt
  {
    hide Look, Value, Codes, Dynamic;
    var k := (at + 3 + 7) / 8;
    if Value(Look(input, at + 1, 2)) == 0 {
      BytesOfSum(ByteAt(input, k), ByteAt(input, k + 1), ByteAt(input, k + 2), ByteAt(input, k + 3));
    }
  }

  lemma {:induction false} BytesOfSum(a: byte, b: byte, c: byte, d: byte)
    ensures d as int * 256 + c as int == 65535 - (b as int * 256 + a as int) <==> a as int + c as int == 255 && b as int + d as int == 255
  {
  }

  /** In a block with any codes: a length symbol above 285, a distance symbol above 29, and a match from before the
      first byte. */
  lemma {:induction false} LengthIsRefused(input: seq<byte>, at: nat, z: nat, out: seq<byte>, lit: seq<nat>, dis: seq<nat>, limit: nat)
    requires Accepted(lit) && HasCode(lit, z) && z >= 286 && BitsHere(input, at, CodeBits(lit, z))
    ensures Codes(input, at, out, lit, dis, limit) == Corrupt
  {
    hide Accepted, BitsHere, CodeBits;
    SymbolHere(lit, input, at, z);
  }

  lemma {:induction false} DistanceIsRefused(input: seq<byte>, at: nat, len: nat, d: nat, out: seq<byte>, lit: seq<nat>, dis: seq<nat>,
                                             limit: nat)
    requires Accepted(lit) && Accepted(dis) && 3 <= len <= 258 && HasCode(lit, 257 + LengthIndex(len, 0)) && HasCode(dis, d) && d >= 30
    requires BitsHere(input, at, LengthBitsIn(len, lit) + CodeBits(dis, d))
    ensures Codes(input, at, out, lit, dis, limit) == Corrupt
  {
    hide Accepted, BitsHere, BitsOf, CodeBits, LengthBase, LengthExtra, LengthIndex, Look, Pow2, Value;
    LengthIndexFits(len);
    var j := LengthIndex(len, 0);
    BitsHereSplit(input, at, LengthBitsIn(len, lit), CodeBits(dis, d));
    BitsHereSplit(input, at, CodeBits(lit, 257 + j), BitsOf(len - LengthBase(j), LengthExtra(j)));
    SymbolHere(lit, input, at, 257 + j);
    SymbolHere(dis, input, at + lit[257 + j] + LengthExtra(j), d);
  }

  lemma {:induction false} MatchIsRefused(input: seq<byte>, at: nat, len: nat, dist: nat, out: seq<byte>, lit: seq<nat>, dis: seq<nat>,
                                          limit: nat)
    requires Encodable(Match(len, dist)) && Accepted(lit) && Accepted(dis) && Spells(Match(len, dist), lit, dis)
    requires BitsHere(input, at, TokenBitsIn(Match(len, dist), lit, dis)) && dist > |out|
    ensures Codes(input, at, out, lit, dis, limit) == Corrupt
  {
    hide Accepted, BitsHere, TokenBitsIn, ReadToken, Spells;
    TokenReadsBack(input, at, Match(len, dist), lit, dis);
  }

  /** A list of lengths may not start by repeating, and may not run past its number. */
  lemma {:induction false} ListIsRefused(input: seq<byte>, at: nat, cs: seq<Spelling>, c: Spelling, cl: seq<nat>, total: nat, lens: seq<nat>)
    requires Accepted(cl) && AllSendable(cs, cl, lens) && InRange(c) && HasCode(cl, NumberOf(c)) && |SpelledOut(cs, cl, lens)| < total
    requires BitsHere(input, at, ListBits(cs, cl, lens) + SpellingBits(c, cl))
    requires var l := SpelledOut(cs, cl, lens); (c.Again? && l == []) || (!c.Plain? && |l| + c.n > total)
    ensures ReadLengths(input, at, cl, total, lens) == BadLengths
    decreases |cs|
  {
    hide BitsHere, Accepted, CodeBits, Repeats, RepeatOf, RepeatBits, Symbol, InRange, Spelled, ExtraBits;
    var last := SpellingBits(c, cl);
    if cs == [] {
      assert ListBits(cs, cl, lens) + last == last;
      BitsHereSplit(input, at, CodeBits(cl, NumberOf(c)), ExtraBits(c));
      SymbolHere(cl, input, at, NumberOf(c));
      Numbers(c);
      if lens != [] || !c.Again? { ExtraReadsBack(input, at + cl[NumberOf(c)], c, lens); }
    } else {
      var d, rest := cs[0], ListBits(cs[1..], cl, Spelled(cs[0], lens));
      var code, extra := CodeBits(cl, NumberOf(d)), ExtraBits(d);
      assert ListBits(cs, cl, lens) + last == (code + extra) + (rest + last);
      BitsHereSplit(input, at, code + extra, rest + last);
      BitsHereSplit(input, at, code, extra);
      SymbolHere(cl, input, at, NumberOf(d));
      OneSpelled(d, cl, lens);
      StaysShort(cs, cl, lens);
      ListIsRefused(input, at + |code + extra|, cs[1..], c, cl, total, Spelled(d, lens));
      if !d.Plain? { ExtraReadsBack(input, at + |code|, d, lens); }
    }
  }

  lemma {:induction false} Numbers(c: Spelling)
    ensures !c.Plain? ==> NumberOf(c) >= 16 && (NumberOf(c) == 16 <==> c.Again?)
  {
  }

  lemma {:induction false} StaysShort(cs: seq<Spelling>, cl: seq<nat>, lens: seq<nat>)
    requires cs != [] && AllSendable(cs, cl, lens)
    ensures |lens| < |Spelled(cs[0], lens)| <= |SpelledOut(cs, cl, lens)|
  {
  }
}
