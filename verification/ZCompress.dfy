/** Compressing a byte string, and getting it back. */
module ZCompress {
  import opened Adler
  import opened Bits
  import opened Canonical
  import opened Deflate
  import opened ZChoices
  import opened ZDecoder
  import opened ZEncoder
  import opened ZEncoding

  /** The longest data for which rounding up to whole stored blocks stays within a 32-bit `int`. */
  const MAX_LENGTH: nat := 0x7FFF_FFFF - 32766

  // ---- The block of fixed codes ----

  const HEADER: seq<byte> := [0x78, 0x5e]

  /** The bits of a stream with one final block of fixed codes. */
  function StreamBits(ts: seq<Token>): seq<bool>
    requires forall t <- ts :: Encodable(t)
  {
    BitsOfBytes(HEADER) + [true, true, false] + AllBits(ts)
  }

  /** The tokens stand for the first `i` bytes of the data. */
  ghost predicate StandFor(ts: seq<Token>, data: seq<byte>, i: nat) {
    i <= |data| && (forall t <- ts :: Encodable(t)) && Sound(ts, []) && Expand(ts, []) == data[..i]
  }

  lemma {:induction false} TokensEncodable(ts: seq<Token>, data: seq<byte>, i: nat)
    requires StandFor(ts, data, i)
    ensures forall t <- ts :: Encodable(t)
  {
  }

  lemma {:induction false} OneMoreToken(ts: seq<Token>, data: seq<byte>, i: nat, t: Token, n: nat)
    requires StandFor(ts, data, i) && Encodable(t) && !t.EndOfBlock? && i + n <= |data|
    requires t.Match? ==> t.dist <= i
    requires Put(data[..i], t) == data[..i + n]
    ensures StandFor(ts + [t], data, i + n) && StreamBits(ts + [t]) == StreamBits(ts) + TokenBits(t)
  {
    hide TokenBits, BitsOfBytes, Copy;
    TokensAppend(ts, data[..i], t);
    AllBitsConcat(ts, [t]);
    assert AllBits([t]) == TokenBits(t) + AllBits([]);
    assert StreamBits(ts + [t]) == BitsOfBytes(HEADER) + [true, true, false] + (AllBits(ts) + TokenBits(t));
  }

  lemma {:induction false} TokensAppend(ts: seq<Token>, out: seq<byte>, t: Token)
    requires Sound(ts, []) && Expand(ts, []) == out && Encodable(t) && !t.EndOfBlock? && (t.Match? ==> t.dist <= |out|)
    ensures Sound(ts + [t], []) && Expand(ts + [t], []) == Put(out, t)
  {
    assert [t][1..] == [];
    SoundAppend(ts, [], t);
  }

  class Lists {
    /** For each hash, positions of earlier bytes. */
    const lists: array<seq<nat>>

    constructor ()
      ensures Valid(0) && fresh(lists) && forall h :: 0 <= h < ZHASH ==> lists[h] == []
    {
      lists := new seq<nat>[ZHASH](_ => []);
    }

    ghost predicate Valid(i: nat)
      reads lists
    {
      lists.Length == ZHASH && forall h :: 0 <= h < ZHASH ==> Earlier(lists[h], i)
    }

    /** Adds a position; a list that has grown too long first loses its older half. */
    method Enter(h: nat, i: nat, quality: nat)
      requires Valid(i) && h < ZHASH && quality > 0
      modifies lists
      ensures Valid(i + 1)
      ensures forall k :: 0 <= k < ZHASH && k != h ==> lists[k] == old(lists[k])
      ensures lists[h] == (if |old(lists[h])| == 2 * quality then old(lists[h])[quality..] else old(lists[h])) + [i]
    {
      if |lists[h]| == 2 * quality {
        lists[h] := lists[h][quality..];
      }
      lists[h] := lists[h] + [i];
    }
  }

  /** A match for the bytes at `i`, unless the next byte starts a longer one. */
  method Search(data: seq<byte>, table: Lists, i: nat, quality: nat) returns (found: bool, p: nat, best: nat)
    requires i + 3 < |data| && table.Valid(i) && quality > 0
    modifies table.lists
    ensures table.Valid(i + 1) && best >= 3 && IsMatch(data, i, found, p, best)
    ensures var h := Bucket(data, i);
      && (forall k :: 0 <= k < ZHASH && k != h ==> table.lists[k] == old(table.lists[k]))
      && table.lists[h] == (if |old(table.lists[h])| == 2 * quality then old(table.lists[h])[quality..] else old(table.lists[h])) + [i]
      && Searched(data, old(table.lists[h]), table.lists[Bucket(data, i + 1)], i, found, best)
  {
    hide Reaches, Bucket;
    var h := Bucket(data, i);
    ghost var list := table.lists[h];
    found, p, best := FindMatch(data, table.lists[h], i);
    table.Enter(h, i, quality);
    if found {
      var next := table.lists[Bucket(data, i + 1)];
      var better := BetterMatch(data, next, i, best);
      if better {
        found := false;
        forall q <- list, m: nat | m >= 3 && Reaches(data, q, i, 32768, m)
          ensures exists r <- next :: Reaches(data, r, i + 1, 32768, m + 1)
        {
          var j :| 0 <= j < |list| && list[j] == q;
          var k :| 0 <= k < |next| && Reaches(data, next[k], i + 1, 32768, best + 1);
          Shorter(data, next[k], i + 1, m + 1, best + 1);
          assert next[k] in next;
        }
      }
    }
  }

  method PutMatch(w: ZWriter, len: nat, dist: nat)
    requires w.Valid() && 3 <= len <= 258 && 1 <= dist <= 32767
    modifies w
    ensures w.Valid() && w.Written() == old(w.Written()) + TokenBits(Match(len, dist))
  {
    hide ZWriter.Valid, ZWriter.Written, LengthBits, DistBits, TokenBits;
    MatchBits(len, dist);
    w.PutLength(len);
    w.PutDistance(dist);
  }

  /** Writes all the data as literals and matches, the longest there are recent positions for. */
  method PutTokens(w: ZWriter, data: seq<byte>, quality: nat) returns (ghost ts: seq<Token>)
    requires w.Valid() && w.Written() == StreamBits([]) && quality > 0
    modifies w
    ensures w.Valid() && StandFor(ts, data, |data|) && w.Written() == StreamBits(ts)
    ensures AllChosen(data, ts, quality)
  {
    hide ZWriter.Valid, ZWriter.Written, TokenBits, StreamBits, Lists.Valid, Sound, Expand, Copy, AllChosen, Chosen, Holds,
         Searched, Bucket, StartsOf;
    ts := [];
    NothingYet(data);
    var table := new Lists();
    NothingHeld(table.lists[..], data, quality);
    var i := 0;
    while i as int < |data| - 3
      invariant i <= |data| && w.Valid() && table.Valid(i) && fresh(table.lists)
      invariant StandFor(ts, data, i) && w.Written() == StreamBits(ts)
      invariant Total(ts) == i && AllChosen(data, ts, quality) && Holds(table.lists[..], data, StartsOf(ts), quality)
      decreases |data| - i
    {
      ghost var lists := table.lists[..];
      var found, p, best := Search(data, table, i, quality);
      Entered(lists, table.lists[..], data, StartsOf(ts), i, quality);
      ghost var t := if found then Match(best, i - p) else Literal(data[i]);
      SearchChooses(data, lists, table.lists[..], StartsOf(ts), i, quality, found, best, t);
      ChosenNext(data, ts, t, quality);
      StartsAppend(ts, t);
      if found {
        CopyReproduces(data, p, i, best);
        OneMoreToken(ts, data, i, Match(best, i - p), best);
        PutMatch(w, best, i - p);
        ts := ts + [Match(best, i - p)];
        Later(table, i + 1, i + best);
        i := i + best;
      } else {
        ts := PutLiteral(w, data, i, ts);
        i := i + 1;
      }
    }
    while i < |data|
      invariant i <= |data| && w.Valid() && StandFor(ts, data, i) && w.Written() == StreamBits(ts)
      invariant i + 3 >= |data| && Total(ts) == i && AllChosen(data, ts, quality)
    {
      TailChooses(data, StartsOf(ts), i, Literal(data[i]), quality);
      ChosenNext(data, ts, Literal(data[i]), quality);
      StartsAppend(ts, Literal(data[i]));
      ts := PutLiteral(w, data, i, ts);
      i := i + 1;
    }
  }

  method PutLiteral(w: ZWriter, data: seq<byte>, i: nat, ghost before: seq<Token>) returns (ghost ts: seq<Token>)
    requires w.Valid() && i < |data| && StandFor(before, data, i) && w.Written() == StreamBits(before)
    modifies w
    ensures w.Valid() && StandFor(ts, data, i + 1) && w.Written() == StreamBits(ts)
    ensures ts == before + [Literal(data[i])]
  {
    hide ZWriter.Valid, ZWriter.Written, StreamBits, StandFor;
    ts := before + [Literal(data[i])];
    assert data[..i] + [data[i]] == data[..i + 1];
    OneMoreToken(before, data, i, Literal(data[i]), 1);
    w.Huff(data[i]);
  }

  lemma {:induction false} NothingYet(data: seq<byte>)
    ensures StandFor([], data, 0)
  {
  }

  lemma {:induction false} Later(table: Lists, i: nat, j: nat)
    requires table.Valid(i) && i <= j
    ensures table.Valid(j)
  {
  }

  /** The whole block: header, type, data, end of block, and zeros up to a byte boundary. */
  method FixedStream(data: seq<byte>, quality: nat) returns (out: seq<byte>, ghost ts: seq<Token>, ghost pad: seq<bool>)
    requires quality > 0
    ensures StandFor(ts, data, |data|) && AllChosen(data, ts, quality)
    ensures BitsOfBytes(out) == StreamBits(ts) + TokenBits(EndOfBlock) + pad && |pad| < 8
  {
    hide StandFor, TokenBits, AllChosen;
    var w := StartOfStream();
    ts := PutTokens(w, data, quality);
    w.Huff(256);
    EndOfBlockBits();
    pad := PadToByte(w);
    out := w.out;
  }

  lemma {:induction false} EndOfBlockBits()
    ensures TokenBits(EndOfBlock) == CodeBits(DefaultLengths(), 256)
  {
  }

  method StartOfStream() returns (w: ZWriter)
    ensures fresh(w) && w.Valid() && w.Written() == StreamBits([])
  {
    w := new ZWriter();
    FirstBits();
    w.Add(1, 1);
    w.Add(1, 2);
  }

  lemma {:induction false} FirstBits()
    ensures BitsOf(1, 1) == [true] && BitsOf(1, 2) == [true, false] && BitsOf(0, 0) == []
    ensures StreamBits([]) == BitsOfBytes(HEADER) + BitsOf(1, 1) + BitsOf(1, 2)
    ensures BitsOfBytes(HEADER) + [] == BitsOfBytes(HEADER)
    ensures Pow2(1) == 2 && Pow2(2) == 4
  {
    assert BitsOf(0, 1) == [false];
  }

  /** Zeros up to a byte boundary. */
  method PadToByte(w: ZWriter) returns (ghost pad: seq<bool>)
    requires w.Valid()
    modifies w
    ensures BitsOfBytes(w.out) == old(w.Written()) + pad && |pad| < 8
  {
    hide ZWriter.Valid, ZWriter.Written, BitsOf;
    pad := [];
    w.WrittenLength();
    ghost var pending := w.bitcount;
    while w.bitcount > 0
      invariant w.Valid() && w.Written() == old(w.Written()) + pad && w.bitcount < 8
      invariant w.bitcount == pending + |pad| || (w.bitcount == 0 && pending > 0 && pending + |pad| == 8)
      decreases if w.bitcount == 0 then 0 else 8 - w.bitcount
    {
      w.WrittenLength();
      w.Add(0, 1);
      w.WrittenLength();
      OneBit();
      pad := pad + BitsOf(0, 1);
    }
    w.WrittenWhole();
  }

  lemma {:induction false} OneBit()
    ensures |BitsOf(0, 1)| == 1
  {
  }

  // ---- Stored blocks ----

  function StoredHeader(final: bool, n: nat): (r: seq<byte>)
    requires n < 32768
  {
    [if final then 1 else 0, n % 256, n / 256, 255 - n % 256, 255 - n / 256]
  }

  /** How many bytes the next stored block takes. */
  function ChunkLength(left: nat): nat { if left > 32767 then 32767 else left }

  /** The data from `j` on as stored blocks. */
  function StoredBlocks(data: seq<byte>, j: nat): seq<byte>
    requires j <= |data|
    decreases |data| - j
  {
    if j == |data| then []
    else
      var n := ChunkLength(|data| - j);
      StoredHeader(j + n == |data|, n) + data[j..j + n] + StoredBlocks(data, j + n)
  }

  /** How long the stored form is. */
  lemma {:induction false} StoredLength(data: seq<byte>, j: nat)
    requires j <= |data|
    ensures |StoredBlocks(data, j)| == |data| - j + (|data| - j + 32766) / 32767 * 5
    decreases |data| - j
  {
    if j < |data| { StoredLength(data, j + ChunkLength(|data| - j)); }
  }

  method StoreBlocks(data: seq<byte>) returns (out: seq<byte>)
    ensures out == HEADER + StoredBlocks(data, 0)
  {
    out := HEADER;
    var j := 0;
    while j < |data|
      invariant j <= |data| && out + StoredBlocks(data, j) == HEADER + StoredBlocks(data, 0)
      decreases |data| - j
    {
      var blocklen := |data| - j;
      if blocklen > 32767 { blocklen := 32767; }
      JoinFour(out, StoredHeader(|data| - j == blocklen, blocklen), data[j..j + blocklen], StoredBlocks(data, j + blocklen));
      out := out + StoredHeader(|data| - j == blocklen, blocklen) + data[j..j + blocklen];
      j := j + blocklen;
    }
    assert out + [] == out;
  }

  lemma {:induction false} JoinFour(a: seq<byte>, b: seq<byte>, c: seq<byte>, d: seq<byte>)
    ensures a + (b + c + d) == a + b + c + d
  {
  }

  lemma {:induction false} FlagByte(input: seq<byte>, p: nat)
    requires p < |input| && input[p] <= 1
    ensures BitAt(input, 8 * p) <==> input[p] == 1
    ensures Value(Look(input, 8 * p + 1, 2)) == 0
  {
    hide BitsOf, BitAt, Value;
    var w, v := Look(input, 8 * p, 8), Look(input, 8 * p + 1, 2);
    LookByte(input, p);
    LowBits(input[p], 5);
    assert w[0] == BitAt(input, 8 * p + 0) && w[1] == v[0] && w[2] == v[1];
    NoValue(v);
  }

  lemma {:induction false} LowBits(b: nat, n: nat)
    requires b <= 1
    ensures BitsOf(b, n + 3) == [b == 1, false, false] + BitsOf(0, n)
  {
    assert BitsOf(b, n + 3) == [b == 1] + BitsOf(0, n + 2);
    assert BitsOf(0, n + 2) == [false] + BitsOf(0, n + 1);
  }

  lemma {:induction false} NoValue(v: seq<bool>)
    requires |v| == 2 && !v[0] && !v[1]
    ensures Value(v) == 0
  {
    assert v[1..][1..] == [] && Value(v[1..]) == 0;
  }

  /** The reference reads one stored block. */
  lemma {:induction false} ChunkReadsBack(input: seq<byte>, p: nat, out: seq<byte>, final: bool, chunk: seq<byte>, limit: nat)
    requires 0 < |chunk| <= 32767 && |out| + |chunk| <= limit
    requires Has(input, p, StoredHeader(final, |chunk|)) && Has(input, p + 5, chunk)
    ensures Block(input, 8 * p, out, limit) == Inflated(8 * (p + 5 + |chunk|), out + chunk)
    ensures BitAt(input, 8 * p) == final
  {
    var h := input[p..p + 5];
    assert input[p] == h[0] && input[p + 1] == h[1] && input[p + 2] == h[2] && input[p + 3] == h[3] && input[p + 4] == h[4];
    FlagByte(input, p);
    assert (8 * p + 3 + 7) / 8 == p + 1;
  }

  lemma {:induction false} StoredReadsBack(input: seq<byte>, p: nat, data: seq<byte>, j: nat, limit: nat)
    requires j < |data| <= limit && Has(input, p, StoredBlocks(data, j))
    ensures Blocks(input, 8 * p, data[..j], limit) == Inflated(8 * (p + |StoredBlocks(data, j)|), data)
    decreases |data| - j
  {
    hide Has, StoredHeader, Block, Blocks, BitAt;
    var n := ChunkLength(|data| - j);
    var final, chunk, rest := j + n == |data|, data[j..j + n], StoredBlocks(data, j + n);
    HasSplit(input, p, StoredHeader(final, n) + chunk, rest);
    HasSplit(input, p, StoredHeader(final, n), chunk);
    HeaderLength(final, n);
    ChunkReadsBack(input, p, data[..j], final, chunk, limit);
    assert data[..j] + chunk == data[..j + n];
    BlocksStep(input, 8 * p, data[..j], limit);
    if final {
      assert data[..|data|] == data;
    } else {
      StoredReadsBack(input, p + 5 + n, data, j + n, limit);
    }
  }

  lemma {:induction false} HeaderLength(final: bool, n: nat)
    requires n < 32768
    ensures |StoredHeader(final, n)| == 5
  {
  }

  // ---- The whole stream ----

  /** The stream is read as these bytes, without running past its end. */
  ghost predicate ReadsAs(z: seq<byte>, data: seq<byte>, limit: nat) {
    var r := Zlib(z, limit);
    r.Inflated? && r.out == data && r.at <= 8 * |z|
  }

  lemma {:induction false} LookIsSlice(input: seq<byte>, at: nat, n: nat)
    requires at + n <= 8 * |input|
    ensures Look(input, at, n) == BitsOfBytes(input)[at..at + n]
  {
    var w, b := Look(input, at, n), BitsOfBytes(input);
    forall k | 0 <= k < n ensures w[k] == b[at..at + n][k] { assert w[k] == BitAt(input, at + k); }
  }

  /** Bits that follow known ones in a byte string. */
  lemma {:induction false} BitsAfter(input: seq<byte>, before: seq<bool>, bits: seq<bool>, after: seq<bool>)
    requires BitsOfBytes(input) == before + bits + after
    ensures BitsHere(input, |before|, bits)
  {
    LookIsSlice(input, |before|, |bits|);
    assert (before + bits + after)[|before|..|before| + |bits|] == bits;
  }

  lemma {:induction false} BytesFromBits(a: seq<byte>, b: seq<byte>)
    requires |a| <= |b| && BitsOfBytes(a) == BitsOfBytes(b)[..8 * |a|]
    ensures a <= b
  {
    if a != [] {
      var x, y := BitsOfBytes(a), BitsOfBytes(b);
      assert x[..8] == BitsOf(a[0], 8) && y[..8] == BitsOf(b[0], 8) && y[..8 * |a|][..8] == y[..8];
      Pow2Values();
      ValueOfBits(a[0], 8);
      ValueOfBits(b[0], 8);
      assert x[8..] == BitsOfBytes(a[1..]) && y[8..] == BitsOfBytes(b[1..]);
      assert y[8..][..8 * |a[1..]|] == y[..8 * |a|][8..];
      BytesFromBits(a[1..], b[1..]);
    }
  }

  lemma {:induction false} HeaderReads(z: seq<byte>)
    requires |z| > 2 && z[0] == 0x78 && z[1] == 0x5e
    ensures HeaderOk(z)
  {
  }

  /** A stream with one block of fixed codes is read back. */
  lemma {:induction false} FixedReadsBack(z: seq<byte>, ts: seq<Token>, after: seq<bool>, data: seq<byte>, limit: nat)
    requires StandFor(ts, data, |data|) && |data| <= limit
    requires BitsOfBytes(z) == StreamBits(ts) + TokenBits(EndOfBlock) + after
    ensures ReadsAs(z, data, limit)
  {
    hide StandFor, ReadsAs, BitsOfBytes, BitsHere, AllBits, TokenBits, HeaderOk;
    TokensEncodable(ts, data, |data|);
    var head, kind, stop := BitsOfBytes(HEADER), [true, true, false], TokenBits(EndOfBlock);
    var rest := AllBits(ts) + stop;
    assert BitsOfBytes(z) == head + kind + rest + after;
    assert BitsOfBytes(z) == head + kind + (rest + after);
    BitsAfter(z, head, kind, rest + after);
    BitsAfter(z, head + kind, rest, after);
    assert BitsOfBytes(z)[..16] == head;
    BytesFromBits(HEADER, z);
    EndOfBlockBits();
    HeaderReads(z);
    FixedBlockReads(z, ts, data, limit);
  }

  /** From the three bits of the block header on. */
  lemma {:induction false} FixedBlockReads(z: seq<byte>, ts: seq<Token>, data: seq<byte>, limit: nat)
    requires StandFor(ts, data, |data|) && |data| <= limit && HeaderOk(z)
    requires BitsHere(z, 16, [true, true, false]) && BitsHere(z, 19, AllBits(ts) + TokenBits(EndOfBlock))
    ensures ReadsAs(z, data, limit)
  {
    hide Look, Value, BitsHere, BitAt, AllBits, TokenBits, Codes, Blocks, Block, Sound, Expand, HeaderOk, DefaultLengths, DefaultDistances;
    assert data[..|data|] == data;
    InInput(z, 19, AllBits(ts) + TokenBits(EndOfBlock));
    FixedHeader(z);
    BlockReadsBack(z, 19, ts, [], limit);
    BlockIsFixed(z, 16, [], limit);
    BlocksStep(z, 16, [], limit);
  }

  lemma {:induction false} InInput(z: seq<byte>, at: nat, bits: seq<bool>)
    requires BitsHere(z, at, bits)
    ensures at + |bits| <= 8 * |z|
  {
  }

  /** Final, and of kind one. */
  lemma {:induction false} FixedHeader(z: seq<byte>)
    requires BitsHere(z, 16, [true, true, false])
    ensures 16 < 8 * |z| && BitAt(z, 16) && Value(Look(z, 17, 2)) == 1
  {
    var w, v := Look(z, 16, 3), Look(z, 17, 2);
    assert w[0] == BitAt(z, 16 + 0) && w[1] == v[0] && w[2] == v[1];
    assert v == [true, false] && v[1..] == [false] && v[1..][1..] == [];
    assert Value([false]) == 0;
  }

  lemma {:induction false} BlockIsFixed(z: seq<byte>, at: nat, out: seq<byte>, limit: nat)
    requires Value(Look(z, at + 1, 2)) == 1
    ensures Block(z, at, out, limit) == Codes(z, at + 3, out, DefaultLengths(), DefaultDistances(), limit)
  {
    hide Codes, Look, Value, DefaultLengths, DefaultDistances;
  }

  lemma {:induction false} EmptyIsCorrupt(z: seq<byte>, limit: nat)
    requires z == HEADER + [0, 0, 0, 1]
    ensures Zlib(z, limit) == Corrupt
  {
    HeaderReads(z);
    FlagByte(z, 2);
    assert ByteAt(z, 3) == 0 && ByteAt(z, 4) == 0 && ByteAt(z, 5) == 1 && ByteAt(z, 6) == 0;
    assert Stored(z, 19, [], limit) == Corrupt;
    BlocksStep(z, 16, [], limit);
  }

  lemma {:induction false} StoredStreamReadsBack(z: seq<byte>, data: seq<byte>, tail: seq<byte>, limit: nat)
    requires z == HEADER + StoredBlocks(data, 0) + tail && 0 < |data| <= limit
    ensures ReadsAs(z, data, limit)
  {
    HeaderReads(z);
    var s := StoredBlocks(data, 0);
    assert z[2..2 + |s|] == s;
    assert data[..0] == [];
    StoredReadsBack(z, 2, data, 0, limit);
  }

  /** The checksum, most significant byte first. */
  function Trailer(data: seq<byte>): seq<byte> {
    var a := Adler32(data);
    [(a.s2 / 256) % 256, a.s2 % 256, (a.s1 / 256) % 256, a.s1 % 256]
  }

  /** The bytes that the tokens take in a block of the fixed codes. */
  function FixedLength(ts: seq<Token>): nat
    requires forall t <- ts :: Encodable(t)
  {
    (|StreamBits(ts)| + |TokenBits(EndOfBlock)| + 7) / 8
  }

  /** The tokens in the fixed codes, or stored blocks where those are shorter; then the checksum. */
  ghost predicate IsShorter(z: seq<byte>, data: seq<byte>, ts: seq<Token>)
    requires forall t <- ts :: Encodable(t)
  {
    if FixedLength(ts) <= 2 + |StoredBlocks(data, 0)|
    then |z| == FixedLength(ts) + 4 && StreamBits(ts) + TokenBits(EndOfBlock) <= BitsOfBytes(z)
    else z == HEADER + StoredBlocks(data, 0) + Trailer(data)
  }

  /** Compresses; what it returns is read as the data, unless there is no data. */
  method Compress(data: seq<byte>, quality: int) returns (z: seq<byte>, ghost ts: seq<Token>)
    requires |data| <= MAX_LENGTH
    ensures StandFor(ts, data, |data|) && AllChosen(data, ts, if quality < 5 then 5 else quality) && IsShorter(z, data, ts)
    ensures forall limit: nat :: |data| <= limit ==> if data == [] then Zlib(z, limit) == Corrupt else ReadsAs(z, data, limit)
    ensures |z| <= |data| + 6 + (|data| + 32766) / 32767 * 5 && |z| >= 4 && z[|z| - 4..] == Trailer(data)
  {
    hide StandFor, ReadsAs, Zlib, StreamBits, TokenBits, AllChosen;
    var q := if quality < 5 then 5 else quality;
    var out;
    ghost var pad;
    out, ts, pad := FixedStream(data, q);
    TokensEncodable(ts, data, |data|);
    StoredLength(data, 0);
    PaddedLength(out, ts, pad);
    var stored := |out| > |data| + 2 + (|data| + 32766) / 32767 * 5;
    if stored {
      var longer := |out|;
      out := StoreBlocks(data);
      assert |out| < longer;
    }
    var s1, s2 := AdlerSums(data);
    z := out + [(s2 / 256) % 256, s2 % 256, (s1 / 256) % 256, s1 % 256];
    assert z == out + Trailer(data);
    forall limit: nat | |data| <= limit
      ensures if data == [] then Zlib(z, limit) == Corrupt else ReadsAs(z, data, limit)
    {
      if stored {
        StoredOrEmpty(z, data, limit);
      } else {
        FixedOrEmpty(z, out, ts, pad, data, limit);
      }
    }
    if !stored { FixedFirst(z, out, ts, pad, data); }
  }

  lemma {:induction false} PaddedLength(out: seq<byte>, ts: seq<Token>, pad: seq<bool>)
    requires forall t <- ts :: Encodable(t)
    requires BitsOfBytes(out) == StreamBits(ts) + TokenBits(EndOfBlock) + pad && |pad| < 8
    ensures |out| == FixedLength(ts)
  {
    hide StreamBits, TokenBits, BitsOfBytes;
    assert 8 * |out| == |StreamBits(ts)| + |TokenBits(EndOfBlock)| + |pad|;
  }

  lemma {:induction false} FixedFirst(z: seq<byte>, out: seq<byte>, ts: seq<Token>, pad: seq<bool>, data: seq<byte>)
    requires z == out + Trailer(data) && forall t <- ts :: Encodable(t)
    requires BitsOfBytes(out) == StreamBits(ts) + TokenBits(EndOfBlock) + pad
    ensures StreamBits(ts) + TokenBits(EndOfBlock) <= BitsOfBytes(z)
  {
    hide StreamBits, TokenBits, BitsOfBytes, Trailer;
    BitsOfBytesConcat(out, Trailer(data));
    var bits := StreamBits(ts) + TokenBits(EndOfBlock);
    assert BitsOfBytes(z)[..|bits|] == bits;
  }

  lemma {:induction false} StoredOrEmpty(z: seq<byte>, data: seq<byte>, limit: nat)
    requires z == HEADER + StoredBlocks(data, 0) + Trailer(data) && |data| <= limit
    ensures if data == [] then Zlib(z, limit) == Corrupt else ReadsAs(z, data, limit)
  {
    if data == [] {
      assert z == HEADER + [0, 0, 0, 1];
      EmptyIsCorrupt(z, limit);
    } else {
      StoredStreamReadsBack(z, data, Trailer(data), limit);
    }
  }

  /** Even without data the fixed codes take four bytes, so the stored form is preferred. */
  lemma {:induction false} FixedOrEmpty(z: seq<byte>, out: seq<byte>, ts: seq<Token>, pad: seq<bool>, data: seq<byte>, limit: nat)
    requires z == out + Trailer(data) && |data| <= limit && StandFor(ts, data, |data|)
    requires BitsOfBytes(out) == StreamBits(ts) + TokenBits(EndOfBlock) + pad
    requires |out| <= |data| + 2 + (|data| + 32766) / 32767 * 5
    ensures data != [] && ReadsAs(z, data, limit)
  {
    hide StandFor, ReadsAs, TokenBits, AllBits, BitsOfBytes;
    TokensEncodable(ts, data, |data|);
    assert |BitsOfBytes(out)| >= 19;
    BitsOfBytesConcat(out, Trailer(data));
    var after := pad + BitsOfBytes(Trailer(data));
    assert BitsOfBytes(z) == StreamBits(ts) + TokenBits(EndOfBlock) + after;
    FixedReadsBack(z, ts, after, data, limit);
  }

  /** Decompressing what was compressed gives the data back, exactly when there is any, for every first
      guess at its size above zero. */
  method RoundTrip(data: seq<byte>, quality: int, guess: nat) returns (ok: bool, r: seq<byte>)
    requires |data| <= MAX_LENGTH && 0 < guess <= UINT_MAX
    ensures ok <==> data != []
    ensures ok ==> r == data
  {
    hide MaxCapacity, Zlib;
    var z, _ := Compress(data, quality);
    var a := new ZBuf(z, guess, true);
    ok := a.ParseZlib(true);
    r := a.out;
  }
}
