/** The bits of a block that brings its own codes (section 3.2.7 of RFC 1951), and that they are read back. */
module DynamicBlocks {
  import opened Bits
  import opened Canonical
  import opened Deflate
  import opened ZEncoding

  // ---- The order of the code-length code's lengths ----

  /** Which symbol's length comes in place `k`: the repeats, zero, then from eight up and from seven down in turn. */
  function SymbolAt(k: nat): (r: nat)
    requires k < 19
    ensures r < 19
  {
    if k < 3 then 16 + k else if k == 3 then 0 else if k % 2 == 0 then 8 + (k - 4) / 2 else 7 - (k - 5) / 2
  }

  /** In which place a symbol's length comes. */
  function PlaceOf(i: nat): (r: nat)
    requires i < 19
    ensures r < 19 && SymbolAt(r) == i
  {
    if i >= 16 then i - 16 else if i == 0 then 3 else if i >= 8 then 4 + 2 * (i - 8) else 5 + 2 * (7 - i)
  }

  lemma {:induction false} PlaceOfSymbol(k: nat)
    requires k < 19
    ensures PlaceOf(SymbolAt(k)) == k
  {
  }

  lemma {:induction false} OrderIs(k: nat)
    requires k < 19
    ensures LENGTH_ORDER[k] == SymbolAt(k)
  {
    if k < 10 { FirstInOrder(k); } else { LastInOrder(k); }
  }

  lemma {:induction false} FirstInOrder(k: nat)
    requires k < 10
    ensures LENGTH_ORDER[k] == SymbolAt(k)
  {
    match k { case 0 => case 1 => case 2 => case 3 => case 4 => case 5 => case 6 => case 7 => case 8 => case _ => }
  }

  lemma {:induction false} LastInOrder(k: nat)
    requires 10 <= k < 19
    ensures LENGTH_ORDER[k] == SymbolAt(k)
  {
    match k { case 10 => case 11 => case 12 => case 13 => case 14 => case 15 => case 16 => case 17 => case _ => }
  }

  /** The lengths of the code-length code's symbols in places `k` to `n`, three bits each. */
  function SizeBits(cl: seq<nat>, k: nat, n: nat): (r: seq<bool>)
    requires |cl| == 19 && k <= n <= 19
    ensures |r| == 3 * (n - k)
    decreases n - k
  {
    if k == n then [] else BitsOf(cl[SymbolAt(k)], 3) + SizeBits(cl, k + 1, n)
  }

  /** Lengths below eight, none given after place `n`. */
  predicate CodeLengthCode(cl: seq<nat>, n: nat) {
    |cl| == 19 && 4 <= n <= 19 && Accepted(cl) && forall i :: 0 <= i < 19 ==> cl[i] < 8 && (PlaceOf(i) >= n ==> cl[i] == 0)
  }

  lemma {:induction false} SizeHere(input: seq<byte>, at: nat, cl: seq<nat>, k: nat, n: nat, j: nat)
    requires |cl| == 19 && k <= j < n <= 19 && (forall i :: 0 <= i < 19 ==> cl[i] < 8) && BitsHere(input, at, SizeBits(cl, k, n))
    ensures ThreeBits(input, at + 3 * (j - k)) == cl[SymbolAt(j)]
    decreases j - k
  {
    hide SymbolAt, BitsOf, BitsHere, Look, Value;
    var first := BitsOf(cl[SymbolAt(k)], 3);
    BitsHereSplit(input, at, first, SizeBits(cl, k + 1, n));
    if j == k {
      Pow2Values();
      ExtraHere(input, at, cl[SymbolAt(k)], 3);
    } else {
      SizeHere(input, at + 3, cl, k + 1, n, j);
    }
  }

  /** The lengths read when `k` are given. */
  lemma {:induction false} SizesAre(input: seq<byte>, at: nat, k: nat, i: nat)
    requires k <= 19 && i < 19
    ensures ShortLengths(input, at, k)[i] == if PlaceOf(i) < k then ThreeBits(input, at + 3 * PlaceOf(i)) else 0
  {
    hide SymbolAt, PlaceOf, ThreeBits;
    if k > 0 {
      SizesAre(input, at, k - 1, i);
      OrderIs(k - 1);
      PlaceOfSymbol(k - 1);
    }
  }

  lemma {:induction false} SizesReadBack(input: seq<byte>, at: nat, cl: seq<nat>, n: nat)
    requires CodeLengthCode(cl, n) && BitsHere(input, at, SizeBits(cl, 0, n))
    ensures ShortLengths(input, at, n) == cl
  {
    hide SymbolAt, PlaceOf, ThreeBits, BitsHere, Accepted, ShortLengths, SizeBits;
    forall i | 0 <= i < 19 ensures ShortLengths(input, at, n)[i] == cl[i] {
      SizesAre(input, at, n, i);
      if PlaceOf(i) < n { SizeHere(input, at, cl, 0, n, PlaceOf(i)); }
    }
  }

  // ---- Lists of code lengths ----

  /** A length, the last length three to six times more, three to ten zeros, or eleven to 138 zeros. */
  datatype Spelling = Plain(len: nat) | Again(n: nat) | Zeros(n: nat) | ManyZeros(n: nat)

  predicate InRange(c: Spelling) {
    match c
    case Plain(len) => len < 16
    case Again(n) => 3 <= n <= 6
    case Zeros(n) => 3 <= n <= 10
    case ManyZeros(n) => 11 <= n <= 138
  }

  function NumberOf(c: Spelling): nat {
    match c
    case Plain(len) => len
    case Again(_) => 16
    case Zeros(_) => 17
    case ManyZeros(_) => 18
  }

  /** How often, in extra bits. */
  function ExtraBits(c: Spelling): seq<bool>
    requires InRange(c)
  {
    match c
    case Plain(_) => []
    case Again(n) => BitsOf(n - 3, 2)
    case Zeros(n) => BitsOf(n - 3, 3)
    case ManyZeros(n) => BitsOf(n - 11, 7)
  }

  /** The symbol can be sent in the code `cl`, after `lens`. */
  predicate Sendable(c: Spelling, cl: seq<nat>, lens: seq<nat>) {
    InRange(c) && HasCode(cl, NumberOf(c)) && (c.Again? ==> lens != [])
  }

  /** The list after one more symbol. */
  function Spelled(c: Spelling, lens: seq<nat>): seq<nat>
    requires c.Again? ==> lens != []
  {
    match c
    case Plain(len) => lens + [len]
    case Again(n) => lens + seq(n, _ => lens[|lens| - 1])
    case Zeros(n) => lens + seq(n, _ => 0)
    case ManyZeros(n) => lens + seq(n, _ => 0)
  }

  predicate AllSendable(cs: seq<Spelling>, cl: seq<nat>, lens: seq<nat>) {
    cs == [] || (Sendable(cs[0], cl, lens) && AllSendable(cs[1..], cl, Spelled(cs[0], lens)))
  }

  function SpelledOut(cs: seq<Spelling>, cl: seq<nat>, lens: seq<nat>): (r: seq<nat>)
    requires AllSendable(cs, cl, lens)
    ensures |r| >= |lens| && (cs != [] ==> |r| > |lens|)
  {
    if cs == [] then lens else SpelledOut(cs[1..], cl, Spelled(cs[0], lens))
  }

  function SpellingBits(c: Spelling, cl: seq<nat>): seq<bool>
    requires InRange(c) && HasCode(cl, NumberOf(c))
  {
    CodeBits(cl, NumberOf(c)) + ExtraBits(c)
  }

  function ListBits(cs: seq<Spelling>, cl: seq<nat>, lens: seq<nat>): seq<bool>
    requires AllSendable(cs, cl, lens)
  {
    if cs == [] then [] else SpellingBits(cs[0], cl) + ListBits(cs[1..], cl, Spelled(cs[0], lens))
  }

  lemma {:induction false} ExtraReadsBack(input: seq<byte>, at: nat, c: Spelling, lens: seq<nat>)
    requires InRange(c) && !c.Plain? && (c.Again? ==> lens != []) && BitsHere(input, at, ExtraBits(c))
    ensures |ExtraBits(c)| == RepeatBits(NumberOf(c)) && Repeats(input, at, NumberOf(c)) == c.n
    ensures lens + RepeatOf(NumberOf(c), lens, c.n) == Spelled(c, lens)
  {
    hide BitsHere, BitsOf, Look, Value;
    Pow2Values();
    match c
    case Again(n) =>
      ExtraHere(input, at, n - 3, 2);
      assert RepeatOf(16, lens, n) == seq(n, _ => lens[|lens| - 1]);
    case Zeros(n) =>
      ExtraHere(input, at, n - 3, 3);
      assert RepeatOf(17, lens, n) == seq(n, _ => 0);
    case ManyZeros(n) =>
      assert Pow2(7) == 128;
      ExtraHere(input, at, n - 11, 7);
      assert RepeatOf(18, lens, n) == seq(n, _ => 0);
  }

  /** The list of lengths is read back from its symbols. */
  lemma {:induction false} ListReadsBack(input: seq<byte>, at: nat, cs: seq<Spelling>, cl: seq<nat>, lens: seq<nat>)
    requires Accepted(cl) && AllSendable(cs, cl, lens) && BitsHere(input, at, ListBits(cs, cl, lens))
    ensures ReadLengths(input, at, cl, |SpelledOut(cs, cl, lens)|, lens)
         == Lengths(SpelledOut(cs, cl, lens), at + |ListBits(cs, cl, lens)|)
    decreases |cs|
  {
    hide BitsHere, Accepted, CodeBits, Repeats, RepeatOf, RepeatBits, Symbol, InRange, Spelled, ExtraBits;
    if cs != [] {
      var c, rest := cs[0], ListBits(cs[1..], cl, Spelled(cs[0], lens));
      var code, extra := CodeBits(cl, NumberOf(c)), ExtraBits(c);
      BitsHereSplit(input, at, code + extra, rest);
      BitsHereSplit(input, at, code, extra);
      SymbolHere(cl, input, at, NumberOf(c));
      ListReadsBack(input, at + |code + extra|, cs[1..], cl, Spelled(c, lens));
      OneSpelled(c, cl, lens);
      if !c.Plain? { ExtraReadsBack(input, at + |code|, c, lens); }
    }
  }

  lemma {:induction false} OneSpelled(c: Spelling, cl: seq<nat>, lens: seq<nat>)
    requires Sendable(c, cl, lens)
    ensures |Spelled(c, lens)| == |lens| + (if c.Plain? then 1 else c.n) > |lens|
    ensures c.Plain? ==> NumberOf(c) < 16 && Spelled(c, lens) == lens + [NumberOf(c)] && ExtraBits(c) == []
    ensures !c.Plain? ==> NumberOf(c) >= 16 && (NumberOf(c) == 16 <==> c.Again?)
  {
  }

  // ---- The whole block ----

  /** Everything a block with its own codes is made of: the two lists of lengths, the code-length code and how
      many of its lengths are given, the symbols that spell the lists, and the tokens. */
  datatype DynamicBlock = DynamicBlock(lit: seq<nat>, dis: seq<nat>, cl: seq<nat>, n: nat, cs: seq<Spelling>, ts: seq<Token>) {
    ghost predicate HasTables() {
      && 257 <= |lit| <= 288 && 1 <= |dis| <= 32 && Accepted(lit) && Accepted(dis)
      && CodeLengthCode(cl, n) && AllSendable(cs, cl, []) && SpelledOut(cs, cl, []) == lit + dis
    }

    /** It can be sent after `out`. */
    ghost predicate Valid(out: seq<byte>) { HasTables() && Sound(ts, out) && AllSpelled(ts, lit, dis) && HasCode(lit, 256) }

    function CountBits(): seq<bool>
      requires 257 <= |lit| && 1 <= |dis| && 4 <= n
    {
      BitsOf(|lit| - 257, 5) + (BitsOf(|dis| - 1, 5) + BitsOf(n - 4, 4))
    }

    function TableBits(): seq<bool>
      requires 257 <= |lit| && 1 <= |dis| && 4 <= n <= 19 && |cl| == 19 && AllSendable(cs, cl, [])
    {
      CountBits() + (SizeBits(cl, 0, n) + ListBits(cs, cl, []))
    }

    function TokensBits(): seq<bool>
      requires AllSpelled(ts, lit, dis) && HasCode(lit, 256)
    {
      AllBitsIn(ts, lit, dis) + CodeBits(lit, 256)
    }

    lemma {:induction false} CountsReadBack(input: seq<byte>, at: nat)
      requires 257 <= |lit| <= 288 && 1 <= |dis| <= 32 && 4 <= n <= 19 && BitsHere(input, at, CountBits())
      ensures |CountBits()| == 14
      ensures Value(Look(input, at, 5)) == |lit| - 257 && Value(Look(input, at + 5, 5)) == |dis| - 1 && FourBits(input, at + 10) == n - 4
    {
      hide BitsHere, BitsOf, Look, Value;
      assert Pow2(4) == 16 && Pow2(5) == 32 by { Pow2Values(); }
      var a, b, c := BitsOf(|lit| - 257, 5), BitsOf(|dis| - 1, 5), BitsOf(n - 4, 4);
      BitsHereSplit(input, at, a, b + c);
      BitsHereSplit(input, at + 5, b, c);
      ExtraHere(input, at, |lit| - 257, 5);
      ExtraHere(input, at + 5, |dis| - 1, 5);
      ExtraHere(input, at + 10, n - 4, 4);
    }

    /** The two codes are read back. */
    lemma {:induction false} TablesReadBack(input: seq<byte>, at: nat)
      requires HasTables() && BitsHere(input, at, TableBits())
      ensures ReadTables(input, at) == Tables(lit, dis, at + |TableBits()|)
    {
      hide BitsHere, Accepted, BitsOf, Look, Value, ReadLengths, ShortLengths, FourBits, ListBits, SpelledOut, SizeBits;
      var sizes, list := SizeBits(cl, 0, n), ListBits(cs, cl, []);
      BitsHereSplit(input, at, CountBits(), sizes + list);
      CountsReadBack(input, at);
      BitsHereSplit(input, at + 14, sizes, list);
      SizesReadBack(input, at + 14, cl, n);
      ListReadsBack(input, at + 14 + 3 * n, cs, cl, []);
      assert (lit + dis)[..|lit|] == lit && (lit + dis)[|lit|..] == dis;
    }

    /** For any two accepted lists, any symbols that spell them and any sound tokens, the block decodes to the
        bytes its tokens stand for. */
    lemma {:induction false} ReadsBack(input: seq<byte>, at: nat, out: seq<byte>, limit: nat)
      requires Valid(out) && |Expand(ts, out)| <= limit
      requires Value(Look(input, at + 1, 2)) == 2 && BitsHere(input, at + 3, TableBits() + TokensBits())
      ensures Block(input, at, out, limit) == Inflated(at + 3 + |TableBits()| + |TokensBits()|, Expand(ts, out))
    {
      hide BitsHere, Accepted, Look, Value, Codes, ReadTables, Sound, Expand, AllSpelled, AllSendable, SpelledOut, AllBitsIn, CodeBits,
           Stored, TableBits, HasTables;
      Parts();
      BitsHereSplit(input, at + 3, TableBits(), TokensBits());
      TablesReadBack(input, at + 3);
      CodesReadBack(input, at + 3 + |TableBits()|, ts, out, lit, dis, limit);
    }

    lemma {:induction false} Parts()
      requires HasTables()
      ensures 257 <= |lit| && 1 <= |dis| && 4 <= n <= 19 && |cl| == 19 && AllSendable(cs, cl, []) && Accepted(lit) && Accepted(dis)
    {
    }

    /** A whole stream of one such block. */
    lemma {:induction false} StreamReadsBack(input: seq<byte>, limit: nat)
      requires Valid([]) && |Expand(ts, [])| <= limit && HeaderOk(input)
      requires BitAt(input, 16) && Value(Look(input, 17, 2)) == 2 && BitsHere(input, 19, TableBits() + TokensBits())
      ensures Zlib(input, limit) == Inflated(19 + |TableBits()| + |TokensBits()|, Expand(ts, []))
    {
      hide BitsHere, Look, Value, Block, Expand, Valid, TableBits, TokensBits, BitAt;
      Started(input);
      ReadsBack(input, 16, [], limit);
    }

    lemma {:induction false} Started(input: seq<byte>)
      requires BitAt(input, 16)
      ensures 16 < 8 * |input|
    {
    }
  }
}
