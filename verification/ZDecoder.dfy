/** The inflate decoder: a bit buffer over the input, Huffman tables and a bounded output.  It meets the
    reference reading of the stream. */
module ZDecoder {
  import opened Arithmetic
  import opened Bits
  import opened BitReversal
  import opened Canonical
  import opened Deflate
  import opened FixedCodes
  import opened Options
  import opened ZTables

  const UINT_MAX: nat := 0xFFFF_FFFF

  const ZLENGTH_BASE: seq<nat> := [3, 4, 5, 6, 7, 8, 9, 10, 11, 13, 15, 17, 19, 23, 27, 31, 35, 43, 51, 59,
                                   67, 83, 99, 115, 131, 163, 195, 227, 258, 0, 0]
  const ZLENGTH_EXTRA: seq<nat> := [0, 0, 0, 0, 0, 0, 0, 0, 1, 1, 1, 1, 2, 2, 2, 2, 3, 3, 3, 3,
                                    4, 4, 4, 4, 5, 5, 5, 5, 0, 0, 0]
  const ZDIST_BASE: seq<nat> := [1, 2, 3, 4, 5, 7, 9, 13, 17, 25, 33, 49, 65, 97, 129, 193, 257, 385, 513, 769,
                                 1025, 1537, 2049, 3073, 4097, 6145, 8193, 12289, 16385, 24577, 0, 0]
  const ZDIST_EXTRA: seq<nat> := [0, 0, 0, 0, 1, 1, 2, 2, 3, 3, 4, 4, 5, 5, 6, 6, 7, 7, 8, 8,
                                  9, 9, 10, 10, 11, 11, 12, 12, 13, 13, 0, 0]

  lemma {:induction false} LengthTablesFirst(k: nat)
    requires k < 8
    ensures ZLENGTH_BASE[k] == LengthBase(k) && ZLENGTH_EXTRA[k] == LengthExtra(k)
  {
  }

  lemma {:induction false} LengthTablesSecond(k: nat)
    requires 8 <= k < 16
    ensures ZLENGTH_BASE[k] == LengthBase(k) && ZLENGTH_EXTRA[k] == LengthExtra(k)
  {
    PowerAt(k / 4 - 1);
  }

  lemma {:induction false} LengthTablesThird(k: nat)
    requires 16 <= k < 24
    ensures ZLENGTH_BASE[k] == LengthBase(k) && ZLENGTH_EXTRA[k] == LengthExtra(k)
  {
    PowerAt(k / 4 - 1);
  }

  lemma {:induction false} LengthTablesLast(k: nat)
    requires 24 <= k < 29
    ensures ZLENGTH_BASE[k] == LengthBase(k) && ZLENGTH_EXTRA[k] == LengthExtra(k)
  {
    if k < 28 { PowerAt(k / 4 - 1); }
  }

  /** The decoder's tables are those of the standard. */
  lemma {:induction false} LengthTables(k: nat)
    requires k < 29
    ensures ZLENGTH_BASE[k] == LengthBase(k) && ZLENGTH_EXTRA[k] == LengthExtra(k)
  {
    hide LengthBase, LengthExtra;
    if k < 8 { LengthTablesFirst(k); } else if k < 16 { LengthTablesSecond(k); } else if k < 24 { LengthTablesThird(k); } else { LengthTablesLast(k); }
  }

  lemma {:induction false} DistBasesLow(k: nat)
    requires k < 10
    ensures ZDIST_BASE[k] == DistBase(k)
  {
    if k >= 4 { PowerAt(k / 2 - 1); }
  }

  lemma {:induction false} DistBasesMiddle(k: nat)
    requires 10 <= k < 20
    ensures ZDIST_BASE[k] == DistBase(k)
  {
    PowerAt(k / 2 - 1);
  }

  lemma {:induction false} DistBasesHigh(k: nat)
    requires 20 <= k < 30
    ensures ZDIST_BASE[k] == DistBase(k)
  {
    PowerAt(k / 2 - 1);
  }

  lemma {:induction false} DistBases(k: nat)
    requires k < 30
    ensures ZDIST_BASE[k] == DistBase(k)
  {
    hide DistBase;
    if k < 10 { DistBasesLow(k); } else if k < 20 { DistBasesMiddle(k); } else { DistBasesHigh(k); }
  }

  lemma {:induction false} DistExtras(k: nat)
    requires k < 30
    ensures ZDIST_EXTRA[k] == DistExtra(k)
  {
  }

  /** How far doubling takes an output buffer before it would pass UINT_MAX. */
  function MaxCapacity(limit: nat): (r: nat)
    requires limit > 0
    ensures r >= limit && r > UINT_MAX / 2 && (limit <= UINT_MAX ==> r <= UINT_MAX)
    decreases UINT_MAX + 1 - limit
  {
    if limit > UINT_MAX / 2 then limit else MaxCapacity(2 * limit)
  }

  lemma {:induction false} BelowPow2(n: nat)
    ensures n < Pow2(n)
  {
    if n > 0 { BelowPow2(n - 1); }
  }

  /** Doubling a capacity for an output of `need` bytes ends, with room or past half of UINT_MAX, exactly when
      the capacity is not zero or nothing is needed. */
  lemma {:induction false} DoublingEndsIff(limit: nat, need: nat)
    ensures (exists k: nat :: need <= limit * Pow2(k) || limit * Pow2(k) > UINT_MAX / 2) <==> limit > 0 || need == 0
  {
    if limit > 0 {
      BelowPow2(need);
      Scale(1, limit, Pow2(need));
    } else {
      assert need == 0 ==> need <= limit * Pow2(0);
    }
  }

  /** The buffer holds the next `n` bits and nothing above them. */
  ghost predicate Buffered(input: seq<byte>, at: nat, buffer: nat, n: nat) {
    buffer < Pow2(n) && BitsOf(buffer, n) == Look(input, at, n)
  }

  /** Bits shifted out of the buffer are the ones that came first. */
  lemma {:induction false} DropBits(input: seq<byte>, at: nat, buffer: nat, m: nat, n: nat)
    requires n <= m && Buffered(input, at, buffer, m)
    ensures Buffered(input, at + n, ShiftRight(buffer, n), m - n)
    ensures And(buffer, Pow2(n) - 1) == Value(Look(input, at, n))
  {
    AndMask(buffer, n);
    ShiftRightBound(buffer, n, m - n);
    ShiftRightBits(buffer, n, m - n);
    LookConcat(input, at, n, m - n);
    BitsOfPrefix(buffer, n, m - n);
    assert BitsOf(buffer, n) == Look(input, at, n);
    Divide(buffer, Pow2(n));
    BitsOfLow(buffer % Pow2(n), buffer / Pow2(n), n);
    ValueOfBits(buffer % Pow2(n), n);
  }

  /** A byte put above the buffer's bits. */
  lemma {:induction false} AddByte(input: seq<byte>, at: nat, buffer: nat, n: nat, c: byte)
    requires Buffered(input, at, buffer, n) && BitsOf(c, 8) == Look(input, at + n, 8)
    ensures Buffered(input, at, Or(buffer, ShiftLeft(c, n)), n + 8)
  {
    ShiftLeftValue(c, n);
    OrAbove(buffer, c, n);
    BitsOfSum(buffer, c, n, 8);
    LookConcat(input, at, n, 8);
    Pow2Add(n, 8);
    Pow2Values();
    Commute(Pow2(n), c);
    Commute(Pow2(n), 256);
    Scale(c + 1, 256, Pow2(n));
    Distribute(c, 1, Pow2(n));
  }

  /** The next byte goes above the buffer's bits; past the end there are only zeros. */
  lemma {:induction false} NextByte(input: seq<byte>, at: nat, buffer: nat, n: nat, end: nat)
    requires Buffered(input, at, buffer, n) && at + n == 8 * end
    ensures Buffered(input, at, Or(buffer, ShiftLeft(ByteAt(input, end), n)), n + 8)
  {
    LookByte(input, end);
    AddByte(input, at, buffer, n, ByteAt(input, end));
  }

  lemma {:induction false} Window(input: seq<byte>, at: nat, buffer: nat, n: nat) returns (w: seq<bool>)
    requires Buffered(input, at, buffer, n) && n >= 16
    ensures w == Look(input, at, LONGEST) && IsWindow(buffer, w)
  {
    w := Look(input, at, LONGEST);
    BitsOfPrefix(buffer, |w|, n - |w|);
    LookConcat(input, at, |w|, n - |w|);
  }

  /** Past the end of the input the buffer can be taken to hold more zeros. */
  lemma {:induction false} PadZeros(input: seq<byte>, at: nat, buffer: nat, n: nat)
    requires Buffered(input, at, buffer, n) && at + n >= 8 * |input|
    ensures Buffered(input, at, buffer, n + 16)
  {
    Pow2Monotone(n, n + 16);
    PadBits(buffer, n, 16);
    LookConcat(input, at, n, 16);
    var w := Look(input, at + n, 16);
    forall k | 0 <= k < 16 ensures !w[k] { assert !BitAt(input, at + n + k); }
    assert w == Zeros(16);
  }

  class ZBuf {
    const input: seq<byte>
    var pos: nat
    var numBits: nat
    var hitZeof: bool
    var codeBuffer: nat
    var out: seq<byte>
    var capacity: nat
    const expandable: bool
    const zLength: ZHuffman
    const zDistance: ZHuffman
    /** How many bits of the input have been taken, and how many bytes loaded, made-up ones included. */
    ghost var at: nat
    ghost var end: nat

    ghost predicate Valid()
      reads this
    {
      && numBits <= 32 && Buffered(input, at, codeBuffer, numBits)
      && at + numBits == 8 * end
      && (if end <= |input| then pos == end else pos == |input|)
      && (hitZeof ==> end >= |input| + 2)
    }

    ghost predicate Room()
      reads this
    {
      |out| <= capacity <= UINT_MAX && (expandable ==> capacity > 0)
    }

    /** How large the output may get. */
    ghost function Limit(): (r: nat)
      requires Room()
      reads this
      ensures capacity <= r
    {
      if expandable then MaxCapacity(capacity) else capacity
    }

    constructor (data: seq<byte>, olen: nat, exp: bool)
      requires olen <= UINT_MAX && (exp ==> olen > 0)
      ensures Room() && input == data && out == [] && pos == 0 && expandable == exp && capacity == olen
      ensures zLength.Shape() && zDistance.Shape() && zLength.Repr() !! zDistance.Repr()
      ensures fresh(zLength.Repr()) && fresh(zDistance.Repr())
    {
      input := data;
      pos, numBits, hitZeof, codeBuffer, out, capacity := 0, 0, false, 0, [], olen;
      at, end := 0, 0;
      expandable := exp;
      zLength := new ZHuffman();
      zDistance := new ZHuffman();
    }

    method Zget8() returns (c: byte)
      requires pos <= |input|
      modifies this`pos
      ensures c == ByteAt(input, old(pos))
      ensures pos == if old(pos) < |input| then old(pos) + 1 else old(pos)
    {
      if pos >= |input| {
        c := 0;
      } else {
        c := input[pos];
        pos := pos + 1;
      }
    }

    /** The decoder's guard against bits above the buffer: there never are any. */
    predicate Overfull()
      requires Valid()
      reads this
      ensures !Overfull()
    {
      codeBuffer >= Pow2(numBits)
    }

    method FillByte()
      requires Valid() && numBits <= 24
      modifies this`pos, this`numBits, this`codeBuffer, this`end
      ensures Valid() && numBits == old(numBits) + 8
    {
      if Overfull() {
        assert false;
      }
      NextByte(input, at, codeBuffer, numBits, end);
      var c := Zget8();
      codeBuffer := Or(codeBuffer, ShiftLeft(c, numBits));
      numBits := numBits + 8;
      end := end + 1;
    }

    /** Reads bytes into the buffer until it holds more than 24 bits. */
    method FillBits()
      requires Valid() && numBits <= 24
      modifies this`pos, this`numBits, this`codeBuffer, this`end
      ensures Valid() && numBits > 24
    {
      FillByte();
      while numBits <= 24
        invariant Valid()
        decreases 32 - numBits
      {
        FillByte();
      }
    }

    /** Drops `n` bits from the buffer. */
    method Take(n: nat)
      requires Valid() && n <= numBits
      modifies this`numBits, this`codeBuffer, this`at
      ensures Valid() && at == old(at) + n && numBits == old(numBits) - n
    {
      hide Buffered, ShiftRight;
      DropBits(input, at, codeBuffer, numBits, n);
      codeBuffer := ShiftRight(codeBuffer, n);
      numBits := numBits - n;
      at := at + n;
    }

    /** The next `n` bits as a number. */
    method Zreceive(n: nat) returns (k: nat)
      requires Valid() && n <= 24
      modifies this`pos, this`numBits, this`codeBuffer, this`at, this`end
      ensures Valid() && at == old(at) + n && k == Value(Look(input, old(at), n))
      ensures numBits <= 32 - n
    {
      if numBits < n {
        FillBits();
      }
      DropBits(input, at, codeBuffer, numBits, n);
      k := And(codeBuffer, Pow2(n) - 1);
      Take(n);
    }

    /** Makes sixteen bits available.  At the end of the input sixteen zeros are made up, but only once. */
    method NeedBits() returns (ok: bool)
      requires Valid()
      modifies this`pos, this`numBits, this`hitZeof, this`codeBuffer, this`end
      ensures Valid()
      ensures if ok then numBits >= 16 else at > 8 * |input|
    {
      if numBits < 16 {
        if pos >= |input| {
          if hitZeof {
            return false;
          }
          hitZeof := true;
          PadZeros(input, at, codeBuffer, numBits);
          numBits := numBits + 16;
          end := end + 2;
        } else {
          FillBits();
        }
      }
      return true;
    }

    /** Decodes one symbol: the fast table first, then the slow path. */
    method HuffmanDecode(z: ZHuffman, ghost lens: seq<nat>) returns (r: int)
      requires Valid() && z.TablesFor(lens)
      modifies this`pos, this`numBits, this`hitZeof, this`codeBuffer, this`at, this`end
      ensures Valid()
      ensures r >= 0 ==> Symbol(lens, input, old(at)) == Some(r) && at == old(at) + lens[r]
      ensures r < 0 ==> Symbol(lens, input, old(at)).None? || old(at) > 8 * |input|
    {
      var ok := NeedBits();
      if !ok {
        return -1;
      }
      ghost var w := Window(input, at, codeBuffer, numBits);
      var b := z.FastLookup(codeBuffer, w, lens);
      if b != 0 {
        SymbolIs(lens, input, at, w, b % 512);
        Take(b / 512);
        return b % 512;
      }
      r := HuffmanDecodeSlowpath(z, w, lens);
    }

    method HuffmanDecodeSlowpath(z: ZHuffman, ghost w: seq<bool>, ghost lens: seq<nat>) returns (r: int)
      requires Valid() && numBits >= 16 && w == Look(input, at, LONGEST) && IsWindow(codeBuffer, w)
      requires z.TablesFor(lens) && NoneShort(lens, w)
      modifies this`numBits, this`codeBuffer, this`at
      ensures Valid()
      ensures r >= 0 ==> Symbol(lens, input, old(at)) == Some(r) && at == old(at) + lens[r]
      ensures r < 0 ==> Symbol(lens, input, old(at)).None?
    {
      var ok, s, i := z.SlowLookup(codeBuffer, w, lens);
      if !ok {
        NoSymbol(lens, input, at, w);
        return -1;
      }
      SymbolIs(lens, input, at, w, i);
      Take(s);
      r := i;
    }

    /** Doubles the output's capacity until `n` more bytes fit. */
    method Zexpand(n: nat) returns (ok: bool)
      requires Room() && |out| + n > capacity
      modifies this`capacity
      ensures Room() && Limit() == old(Limit())
      ensures ok <==> |out| + n <= Limit()
      ensures ok ==> |out| + n <= capacity
    {
      if !expandable {
        return false;
      }
      var limit := capacity;
      if UINT_MAX - |out| < n {
        return false;
      }
      while |out| + n > limit
        invariant 0 < limit <= UINT_MAX && capacity <= limit && MaxCapacity(limit) == MaxCapacity(capacity)
        decreases UINT_MAX + 1 - limit
      {
        if limit > UINT_MAX / 2 {
          return false;
        }
        limit := limit * 2;
      }
      capacity := limit;
      ok := true;
    }

    method ReceiveLength(k: nat) returns (len: nat)
      requires Valid() && k < 29
      modifies this`pos, this`numBits, this`codeBuffer, this`at, this`end
      ensures Valid() && at == old(at) + LengthExtra(k)
      ensures len == LengthBase(k) + Value(Look(input, old(at), LengthExtra(k)))
    {
      LengthTables(k);
      len := ZLENGTH_BASE[k];
      if ZLENGTH_EXTRA[k] != 0 {
        var extra := Zreceive(ZLENGTH_EXTRA[k]);
        len := len + extra;
      }
    }

    method ReceiveExtra(k: nat) returns (dist: nat)
      requires Valid() && k < 30
      modifies this`pos, this`numBits, this`codeBuffer, this`at, this`end
      ensures Valid() && at == old(at) + DistExtra(k)
      ensures dist == DistBase(k) + Value(Look(input, old(at), DistExtra(k)))
    {
      DistBases(k);
      DistExtras(k);
      dist := ZDIST_BASE[k];
      if ZDIST_EXTRA[k] != 0 {
        var extra := Zreceive(ZDIST_EXTRA[k]);
        dist := dist + extra;
      }
    }

    method ReceiveDistance(ghost len: nat, ghost dis: seq<nat>) returns (ok: bool, dist: nat)
      requires Valid() && zDistance.TablesFor(dis)
      modifies this`pos, this`numBits, this`hitZeof, this`codeBuffer, this`at, this`end
      ensures Valid()
      ensures ok ==> ReadDistance(input, old(at), len, dis) == Read(Match(len, dist), at)
      ensures !ok ==> ReadDistance(input, old(at), len, dis).NoToken? || old(at) > 8 * |input|
    {
      hide ZHuffman.TablesFor, Valid, Symbol, DistBase, DistExtra, Value, Look;
      var k := HuffmanDecode(zDistance, dis);
      if k < 0 || k >= 30 {
        return false, 0;
      }
      dist := ReceiveExtra(k);
      ok := true;
    }

    /** The rest of a match whose length symbol was 257 + k. */
    method ReceiveMatch(k: nat, ghost dis: seq<nat>) returns (ok: bool, t: Token)
      requires Valid() && k < 29 && zDistance.TablesFor(dis)
      modifies this`pos, this`numBits, this`hitZeof, this`codeBuffer, this`at, this`end
      ensures Valid()
      ensures ok ==> ReadMatch(input, old(at), k, dis) == Read(t, at)
      ensures !ok ==> Late(ReadMatch(input, old(at), k, dis))
    {
      hide ZHuffman.TablesFor, Valid, ReadMatch, ReadDistance, LengthBase, LengthExtra, Value, Look, Late;
      ghost var start := at;
      var len := ReceiveLength(k);
      MatchIs(start, k, dis, len, at);
      var found, dist := ReceiveDistance(len, dis);
      ok, t := found, Match(len, dist);
    }

    lemma {:induction false} MatchIs(start: nat, k: nat, dis: seq<nat>, len: nat, next: nat)
      requires next == start + LengthExtra(k) && len == LengthBase(k) + Value(Look(input, start, LengthExtra(k)))
      ensures ReadMatch(input, start, k, dis) == ReadDistance(input, next, len, dis)
      ensures ReadMatch(input, start, k, dis).NoToken? || next > 8 * |input| ==> Late(ReadMatch(input, start, k, dis))
    {
      hide LengthBase, LengthExtra, Value, Look;
    }

    /** A token that is not there, or ends past the input. */
    ghost predicate Late(r: Reading) { r.Read? ==> r.at > 8 * |input| }

    /** What a token is, by its first symbol. */
    lemma {:induction false} TokenIs(start: nat, lit: seq<nat>, dis: seq<nat>)
      ensures Late(NoToken) && (start > 8 * |input| ==> Late(ReadToken(input, start, lit, dis)))
      ensures ReadToken(input, start, lit, dis)
           == match Symbol(lit, input, start)
              case None => NoToken
              case Some(z) =>
                if z < 256 then Read(Literal(z), start + lit[z])
                else if z == 256 then Read(EndOfBlock, start + lit[z])
                else if z >= 286 then NoToken
                else ReadMatch(input, start + lit[z], z - 257, dis)
    {
      hide ReadMatch, Symbol;
    }

    /** One literal, match or end of block. */
    method ReceiveToken(ghost lit: seq<nat>, ghost dis: seq<nat>) returns (ok: bool, t: Token)
      requires Valid() && zLength.TablesFor(lit) && zDistance.TablesFor(dis)
      modifies this`pos, this`numBits, this`hitZeof, this`codeBuffer, this`at, this`end
      ensures Valid()
      ensures ok ==> ReadToken(input, old(at), lit, dis) == Read(t, at)
      ensures !ok ==> Late(ReadToken(input, old(at), lit, dis))
    {
      hide ZHuffman.TablesFor, Valid, ReadToken, ReadMatch, Symbol, Late;
      t := EndOfBlock;
      TokenIs(at, lit, dis);
      var z := HuffmanDecode(zLength, lit);
      if z < 0 {
        return false, t;
      } else if z < 256 {
        return true, Literal(z);
      } else if z == 256 {
        return true, t;
      } else if z >= 286 {
        return false, t;
      }
      ok, t := ReceiveMatch(z - 257, dis);
    }

    /** Copies a match; a distance of one repeats the last byte. */
    method CopyMatch(dist: nat, len: nat)
      requires 1 <= dist <= |out|
      modifies this`out
      ensures out == Copy(old(out), dist, len)
    {
      var n := len;
      if dist == 1 {
        var v := out[|out| - 1];
        while n > 0
          invariant |out| >= dist && out[|out| - 1] == v && Copy(out, dist, n) == Copy(old(out), dist, len)
        {
          out := out + [v];
          n := n - 1;
        }
      } else {
        while n > 0
          invariant |out| >= dist && Copy(out, dist, n) == Copy(old(out), dist, len)
        {
          out := out + [out[|out| - dist]];
          n := n - 1;
        }
      }
    }

    method PutLiteral(b: byte) returns (ok: bool)
      requires Room()
      modifies this`out, this`capacity
      ensures Room() && Limit() == old(Limit())
      ensures ok <==> |old(out)| < Limit()
      ensures out == if ok then old(out) + [b] else old(out)
    {
      if |out| >= capacity {
        ok := Zexpand(1);
        if !ok { return; }
      }
      out := out + [b];
      ok := true;
    }

    method PutMatch(len: nat, dist: nat) returns (ok: bool)
      requires Room() && dist >= 1
      modifies this`out, this`capacity
      ensures Room() && Limit() == old(Limit())
      ensures ok <==> dist <= |old(out)| && |old(out)| + len <= Limit()
      ensures out == if ok then Copy(old(out), dist, len) else old(out)
    {
      if |out| < dist {
        return false;
      }
      if len > capacity - |out| {
        ok := Zexpand(len);
        if !ok { return; }
      }
      CopyMatch(dist, len);
      ok := true;
    }

    /** A stream cut short: if the reference reads it at all, it reads past the end of the input. */
    ghost predicate Cut(r: Inflated) { r.Inflated? ==> r.at > 8 * |input| }

    method ParseHuffmanBlock(ghost lit: seq<nat>, ghost dis: seq<nat>) returns (ok: bool)
      requires Valid() && Room() && zLength.TablesFor(lit) && zDistance.TablesFor(dis)
      modifies this
      ensures Valid() && Room() && Limit() == old(Limit())
      ensures ok ==> Codes(input, old(at), old(out), lit, dis, Limit()) == Inflated(at, out)
      ensures !ok ==> Cut(Codes(input, old(at), old(out), lit, dis, Limit()))
    {
      hide ZHuffman.TablesFor;
      ghost var limit := Limit();
      ghost var whole := Codes(input, at, out, lit, dis, limit);
      while true
        invariant Valid() && Room() && Limit() == limit
        invariant Codes(input, at, out, lit, dis, limit) == whole
        decreases limit - |out|
      {
        LateIsCut(whole, lit, dis);
        var found, t := ReceiveToken(lit, dis);
        if !found {
          return false;
        }
        match t {
          case Literal(b) =>
            ok := PutLiteral(b);
            if !ok { return; }
          case EndOfBlock =>
            if hitZeof && numBits < 16 {
              return false;
            }
            return true;
          case Match(len, dist) =>
            ok := PutMatch(len, dist);
            if !ok { return; }
        }
      }
    }

    /** Once a token ends past the input, the rest is cut short. */
    lemma {:induction false} LateIsCut(whole: Inflated, lit: seq<nat>, dis: seq<nat>)
      requires Room() && whole == Codes(input, at, out, lit, dis, Limit())
      ensures Late(ReadToken(input, at, lit, dis)) ==> Cut(whole)
    {
      if whole.Inflated? {
        FirstToken(input, at, out, lit, dis, Limit());
      }
    }

    // ---- Stored blocks ----

    /** Moves one whole byte out of the buffer. */
    method DrainByte(ghost b: nat) returns (c: byte)
      requires Valid() && at == 8 * b && numBits >= 8
      modifies this`numBits, this`codeBuffer, this`at
      ensures Valid() && at == 8 * (b + 1) && numBits == old(numBits) - 8 && c == ByteAt(input, b)
    {
      ByteValue(input, at, codeBuffer, numBits, b);
      c := And(codeBuffer, 255);
      Take(8);
    }

    /** The next byte of the input, past an empty buffer. */
    method ReadByte() returns (c: byte)
      requires Valid() && numBits == 0
      modifies this`pos, this`at, this`end
      ensures Valid() && end == old(end) + 1 && c == ByteAt(input, old(end))
    {
      c := Zget8();
      at := at + 8;
      end := end + 1;
      assert Look(input, at, 0) == [];
    }

    /** The four bytes after the next byte boundary, from the buffer and then from the input. */
    method ReadHeader(ghost b: nat) returns (header: array<byte>)
      requires Valid() && at == 8 * b && numBits < 32
      modifies this`pos, this`numBits, this`codeBuffer, this`at, this`end
      ensures Valid() && numBits == 0 && end == b + 4
      ensures fresh(header) && header.Length == 4
      ensures header[0] == ByteAt(input, b) && header[1] == ByteAt(input, b + 1)
      ensures header[2] == ByteAt(input, b + 2) && header[3] == ByteAt(input, b + 3)
    {
      hide ByteAt;
      header := new byte[4];
      var k := 0;
      ghost var bytes := end - b;
      while numBits > 0
        invariant Valid() && at == 8 * (b + k) && numBits + 8 * k == 8 * bytes && end == b + bytes
        invariant fresh(header) && forall j :: 0 <= j < k ==> header[j] == ByteAt(input, b + j)
        decreases numBits
      {
        header[k] := DrainByte(b + k);
        k := k + 1;
      }
      while k < 4
        invariant Valid() && numBits == 0 && k <= 4 && end == b + k
        invariant fresh(header) && forall j :: 0 <= j < k ==> header[j] == ByteAt(input, b + j)
      {
        header[k] := ReadByte();
        k := k + 1;
      }
    }

    method SkipToByte()
      requires Valid()
      modifies this`pos, this`numBits, this`codeBuffer, this`at, this`end
      ensures Valid() && at == 8 * ((old(at) + 7) / 8) && numBits <= old(numBits)
    {
      hide Buffered;
      if numBits % 8 != 0 {
        Take(numBits % 8);
      }
    }

    method ParseUncompressedBlock() returns (ok: bool)
      requires Valid() && Room() && numBits < 32
      modifies this
      ensures Valid() && Room() && Limit() == old(Limit())
      ensures ok ==> Stored(input, old(at), old(out), Limit()) == Inflated(at, out)
      ensures !ok ==> !Stored(input, old(at), old(out), Limit()).Inflated?
    {
      hide Stored, ByteAt, MaxCapacity;
      ghost var b := (at + 7) / 8;
      StoredIs(input, at, out, Limit(), b);
      SkipToByte();
      var header := ReadHeader(b);
      var len: nat := (header[1] as int) * 256 + header[0];
      var nlen: nat := (header[3] as int) * 256 + header[2];
      if nlen != 65535 - len {
        return false;
      }
      if pos + len > |input| {
        return false;
      }
      if |out| + len > capacity {
        ok := Zexpand(len);
        if !ok { return; }
      }
      CopyStored(len);
      ok := true;
    }

    method CopyStored(len: nat)
      requires Valid() && Room() && numBits == 0 && pos + len <= |input| && |out| + len <= capacity
      modifies this`pos, this`out, this`at, this`end
      ensures Valid() && Room() && at == 8 * (old(end) + len)
      ensures out == old(out) + if len > 0 then input[old(end)..old(end) + len] else []
      ensures len > 0 ==> old(end) + len <= |input|
    {
      out := out + input[pos..pos + len];
      pos := pos + len;
      end := end + len;
      at := 8 * end;
      assert Look(input, at, 0) == [];
    }

    // ---- The whole stream ----

    method ParseZlibHeader() returns (ok: bool)
      requires pos == 0
      modifies this`pos
      ensures ok <==> HeaderOk(input)
      ensures pos <= |input| && (ok ==> pos == 2)
    {
      var cmf := Zget8();
      var flg := Zget8();
      if pos >= |input| { return false; }
      if ((cmf as int) * 256 + flg) % 31 != 0 { return false; }
      if Bit(flg, 5) { FifthBit(flg); return false; }
      FifthBit(flg);
      LowNibble(cmf);
      if And(cmf, 15) != 8 { return false; }
      ok := true;
    }

    method ParseBlock() returns (ok: bool, final: bool)
      requires Valid() && Room() && zLength.Shape() && zDistance.Shape() && zLength.Repr() !! zDistance.Repr()
      modifies this, zLength.Repr(), zDistance.Repr()
      ensures Valid() && Room() && Limit() == old(Limit())
      ensures ok ==> Block(input, old(at), old(out), Limit()) == Inflated(at, out) && final == BitAt(input, old(at))
      ensures !ok ==> Cut(Block(input, old(at), old(out), Limit()))
    {
      hide Valid, Codes, Stored, Dynamic, Block, Look, Value, BitAt, DefaultLengths, DefaultDistances, ZHuffman.Shape;
      BlockIs(input, at, out, Limit());
      OneBit(input, at);
      var f := Zreceive(1);
      final := f == 1;
      var kind := Zreceive(2);
      if kind == 0 {
        ok := ParseUncompressedBlock();
      } else if kind == 3 {
        return false, final;
      } else if kind == 1 {
        ok := ParseFixedBlock();
      } else {
        ok := ParseDynamicBlock();
      }
    }

    method ParseFixedBlock() returns (ok: bool)
      requires Valid() && Room() && zLength.Shape() && zDistance.Shape() && zLength.Repr() !! zDistance.Repr()
      modifies this, zLength.Repr(), zDistance.Repr()
      ensures Valid() && Room() && Limit() == old(Limit())
      ensures ok ==> Codes(input, old(at), old(out), DefaultLengths(), DefaultDistances(), Limit()) == Inflated(at, out)
      ensures !ok ==> Cut(Codes(input, old(at), old(out), DefaultLengths(), DefaultDistances(), Limit()))
    {
      DefaultsAccepted();
      ok := zLength.Build(DefaultLengths());
      ok := zDistance.Build(DefaultDistances());
      ok := ParseHuffmanBlock(DefaultLengths(), DefaultDistances());
    }

    // ---- Codes that a block brings along ----

    /** The code-length code's lengths. */
    method ReceiveShortLengths(hclen: nat) returns (sizes: seq<nat>)
      requires Valid() && hclen <= 19
      modifies this`pos, this`numBits, this`codeBuffer, this`at, this`end
      ensures Valid() && at == old(at) + 3 * hclen && sizes == ShortLengths(input, old(at), hclen)
    {
      hide Valid, Value, Look, ShortLengths;
      sizes := seq(19, _ => 0);
      FirstLength(at, 0);
      for i := 0 to hclen
        invariant Valid() && at == old(at) + 3 * i && sizes == ShortLengths(input, old(at), i)
      {
        FirstLength(old(at), i);
        var s := Zreceive(3);
        sizes := sizes[LENGTH_ORDER[i] := s];
      }
    }

    /** One more of the code-length code's lengths. */
    lemma {:induction false} FirstLength(start: nat, i: nat)
      requires i < 19
      ensures ShortLengths(input, start, 0) == seq(19, _ => 0)
      ensures LENGTH_ORDER[i] < 19
      ensures ShortLengths(input, start, i + 1)
           == ShortLengths(input, start, i)[LENGTH_ORDER[i] := Value(Look(input, start + 3 * i, 3))]
    {
      hide Value, Look;
    }

    /** How often symbol 16, 17 or 18 repeats. */
    method ReceiveRepeats(c: nat) returns (n: nat)
      requires Valid() && 16 <= c <= 18
      modifies this`pos, this`numBits, this`codeBuffer, this`at, this`end
      ensures Valid() && at == old(at) + RepeatBits(c) && n == Repeats(input, old(at), c)
    {
      hide Valid;
      if c == 16 {
        n := Zreceive(2);
        n := n + 3;
      } else if c == 17 {
        n := Zreceive(3);
        n := n + 3;
      } else {
        n := Zreceive(7);
        n := n + 11;
      }
    }

    /** One symbol of the code lengths: a length, or a repetition of the last one or of zero. */
    method ReceiveLengths(z: ZHuffman, ghost cl: seq<nat>, total: nat, lens: seq<nat>) returns (ok: bool, more: seq<nat>)
      requires Valid() && z.TablesFor(cl) && |cl| == 19 && |lens| < total && forall i :: 0 <= i < |lens| ==> lens[i] < 16
      modifies this`pos, this`numBits, this`hitZeof, this`codeBuffer, this`at, this`end
      ensures Valid()
      ensures ok ==> |lens| < |more| <= total && (forall i :: 0 <= i < |more| ==> more[i] < 16)
      ensures ok ==> ReadLengths(input, old(at), cl, total, lens) == ReadLengths(input, at, cl, total, more)
      ensures !ok ==> LateList(ReadLengths(input, old(at), cl, total, lens))
    {
      hide Valid, ZHuffman.TablesFor, Symbol, RepeatBits, Repeats, ReadLengths, RepeatOf, LateList;
      LengthsStep(at, cl, total, lens);
      var c := HuffmanDecode(z, cl);
      more := lens;
      if c < 0 || c >= 19 {
        return false, more;
      }
      if c < 16 {
        return true, lens + [c];
      }
      if c == 16 && lens == [] {
        return false, more;
      }
      var fill := if c == 16 then lens[|lens| - 1] else 0;
      FillIs(c, lens, fill);
      var n := ReceiveRepeats(c);
      if total - |lens| < n {
        return false, more;
      }
      ok, more := true, lens + seq(n, _ => fill);
    }

    lemma {:induction false} FillIs(c: nat, lens: seq<nat>, fill: nat)
      requires (c == 16 ==> lens != []) && fill == if c == 16 then lens[|lens| - 1] else 0
      ensures forall n: nat :: RepeatOf(c, lens, n) == seq(n, _ => fill)
    {
      forall n: nat ensures RepeatOf(c, lens, n) == seq(n, _ => fill) {
        assert forall i :: 0 <= i < n ==> RepeatOf(c, lens, n)[i] == fill;
      }
    }

    /** A list that is not there, or ends past the input. */
    ghost predicate LateList(r: LengthList) { r.Lengths? ==> r.at > 8 * |input| }

    /** The first symbol of the remaining code lengths. */
    lemma {:induction false} LengthsStep(start: nat, cl: seq<nat>, total: nat, lens: seq<nat>)
      requires |lens| < total && |cl| == 19
      ensures LateList(BadLengths) && (start > 8 * |input| ==> LateList(ReadLengths(input, start, cl, total, lens)))
      ensures match Symbol(cl, input, start)
        case None => ReadLengths(input, start, cl, total, lens) == BadLengths
        case Some(c) =>
          var next := start + cl[c];
          ReadLengths(input, start, cl, total, lens)
          == if c < 16 then ReadLengths(input, next, cl, total, lens + [c])
             else if c == 16 && lens == [] then BadLengths
             else if |lens| + Repeats(input, next, c) > total then BadLengths
             else ReadLengths(input, next + RepeatBits(c), cl, total, lens + RepeatOf(c, lens, Repeats(input, next, c)))
    {
      hide Symbol, Repeats, RepeatOf, RepeatBits;
    }

    /** All the code lengths, written in the code-length code. */
    method ReceiveAllLengths(z: ZHuffman, ghost cl: seq<nat>, total: nat) returns (ok: bool, lens: seq<nat>)
      requires Valid() && z.TablesFor(cl) && |cl| == 19
      modifies this`pos, this`numBits, this`hitZeof, this`codeBuffer, this`at, this`end
      ensures Valid()
      ensures ok ==> ReadLengths(input, old(at), cl, total, []) == Lengths(lens, at) && |lens| == total
      ensures ok ==> forall i :: 0 <= i < |lens| ==> lens[i] < 16
      ensures !ok ==> LateList(ReadLengths(input, old(at), cl, total, []))
    {
      hide Valid, ZHuffman.TablesFor;
      ghost var whole := ReadLengths(input, at, cl, total, []);
      ok, lens := true, [];
      while |lens| < total
        invariant Valid() && z.TablesFor(cl) && |lens| <= total && (forall i :: 0 <= i < |lens| ==> lens[i] < 16)
        invariant ReadLengths(input, at, cl, total, lens) == whole
        decreases total - |lens|
      {
        ok, lens := ReceiveLengths(z, cl, total, lens);
        if !ok {
          return;
        }
      }
      ok := true;
    }

    /** Reads the two codes at the start of a block and builds their tables. */
    method ComputeHuffmanCodes() returns (ok: bool, ghost lit: seq<nat>, ghost dis: seq<nat>)
      requires Valid() && zLength.Shape() && zDistance.Shape() && zLength.Repr() !! zDistance.Repr()
      modifies this`pos, this`numBits, this`hitZeof, this`codeBuffer, this`at, this`end, zLength.Repr(), zDistance.Repr()
      ensures Valid()
      ensures ok ==> ReadTables(input, old(at)) == Tables(lit, dis, at) && zLength.TablesFor(lit) && zDistance.TablesFor(dis)
      ensures !ok ==> LateTables(ReadTables(input, old(at)))
    {
      hide Valid, ReadTables, ZHuffman.TablesFor, ZHuffman.Shape, ListAt, CutTables, LateTables, LateList;
      lit, dis := [], [];
      ghost var start := at;
      var hlit, hdist, hclen := ReceiveCounts();
      TablesAre(start, hlit, hdist, hclen);
      var lens;
      ok, lens := ReceiveCodeLengths(hclen, hlit + hdist);
      if !ok {
        return;
      }
      CutIs(lens, at, hlit);
      ok := BuildTables(lens, hlit);
      lit, dis := lens[..hlit], lens[hlit..];
    }

    /** How many literal, distance and code-length lengths there are. */
    ghost predicate CountsAt(start: nat, hlit: nat, hdist: nat, hclen: nat) {
      && hlit == Value(Look(input, start, 5)) + 257 <= 288 && hdist == Value(Look(input, start + 5, 5)) + 1 <= 32
      && hclen == Value(Look(input, start + 10, 4)) + 4 <= 19
    }

    method ReceiveCounts() returns (hlit: nat, hdist: nat, hclen: nat)
      requires Valid()
      modifies this`pos, this`numBits, this`codeBuffer, this`at, this`end
      ensures Valid() && at == old(at) + 14 && CountsAt(old(at), hlit, hdist, hclen)
    {
      hide Valid, Value, Look;
      FieldsFit(at);
      hlit := Zreceive(5);
      hdist := Zreceive(5);
      hclen := Zreceive(4);
      hlit, hdist, hclen := hlit + 257, hdist + 1, hclen + 4;
    }

    /** The lists at the start of a block, before they are known to be accepted. */
    ghost function ListAt(start: nat, hclen: nat, total: nat): LengthList
      requires hclen <= 19
    {
      var cl := ShortLengths(input, start, hclen);
      if Accepted(cl) then ReadLengths(input, start + 3 * hclen, cl, total, []) else BadLengths
    }

    lemma {:induction false} TablesAre(start: nat, hlit: nat, hdist: nat, hclen: nat)
      requires CountsAt(start, hlit, hdist, hclen)
      ensures ReadTables(input, start) == CutTables(ListAt(start + 14, hclen, hlit + hdist), hlit)
      ensures LateList(ListAt(start + 14, hclen, hlit + hdist)) ==> LateTables(ReadTables(input, start))
      ensures LateTables(NoTables)
    {
      hide ShortLengths, ReadLengths, Accepted, Value, Look;
    }

    lemma {:induction false} CutIs(lens: seq<nat>, next: nat, hlit: nat)
      requires hlit <= |lens|
      ensures CutTables(Lengths(lens, next), hlit)
           == if Accepted(lens[..hlit]) && Accepted(lens[hlit..]) then Tables(lens[..hlit], lens[hlit..], next) else NoTables
    {
    }

    /** The code-length code, and the lengths written in it. */
    method ReceiveCodeLengths(hclen: nat, total: nat) returns (ok: bool, lens: seq<nat>)
      requires Valid() && hclen <= 19
      modifies this`pos, this`numBits, this`hitZeof, this`codeBuffer, this`at, this`end
      ensures Valid()
      ensures ok ==> ListAt(old(at), hclen, total) == Lengths(lens, at) && |lens| == total
      ensures ok ==> forall i :: 0 <= i < |lens| ==> lens[i] < 16
      ensures !ok ==> LateList(ListAt(old(at), hclen, total))
    {
      hide Valid, ShortLengths, ReadLengths, Accepted, ZHuffman.TablesFor, ZHuffman.Shape;
      lens := [];
      var sizes := ReceiveShortLengths(hclen);
      var codeLength := new ZHuffman();
      ok := codeLength.Build(sizes);
      if !ok {
        return;
      }
      ok, lens := ReceiveAllLengths(codeLength, sizes, total);
    }

    method BuildTables(lens: seq<nat>, hlit: nat) returns (ok: bool)
      requires hlit <= 288 && hlit <= |lens| <= hlit + 32 && forall i :: 0 <= i < |lens| ==> lens[i] < 16
      requires zLength.Shape() && zDistance.Shape() && zLength.Repr() !! zDistance.Repr()
      modifies zLength.Repr(), zDistance.Repr()
      ensures ok <==> Accepted(lens[..hlit]) && Accepted(lens[hlit..])
      ensures ok ==> zLength.TablesFor(lens[..hlit]) && zDistance.TablesFor(lens[hlit..])
    {
      hide Accepted;
      ok := zLength.Build(lens[..hlit]);
      if ok {
        ok := zDistance.Build(lens[hlit..]);
      }
    }

    /** Tables that are not there, or end past the input. */
    ghost predicate LateTables(r: Tables) { r.Tables? ==> r.at > 8 * |input| }

    lemma {:induction false} FieldsFit(start: nat)
      ensures Value(Look(input, start, 5)) < 32 && Value(Look(input, start + 5, 5)) < 32 && Value(Look(input, start + 10, 4)) < 16
    {
      Pow2Values();
      assert Pow2(5) == 32 && Pow2(4) == 16;
    }

    method ParseDynamicBlock() returns (ok: bool)
      requires Valid() && Room() && zLength.Shape() && zDistance.Shape() && zLength.Repr() !! zDistance.Repr()
      modifies this, zLength.Repr(), zDistance.Repr()
      ensures Valid() && Room() && Limit() == old(Limit())
      ensures ok ==> Dynamic(input, old(at), old(out), Limit()) == Inflated(at, out)
      ensures !ok ==> Cut(Dynamic(input, old(at), old(out), Limit()))
    {
      hide Valid, ReadTables, ZHuffman.TablesFor, Codes;
      ghost var tables := ReadTables(input, at);
      if tables.Tables? { LateIsCutOff(tables.at, tables.lit, tables.dis); }
      ghost var lit, dis;
      ok, lit, dis := ComputeHuffmanCodes();
      if !ok { return; }
      ok := ParseHuffmanBlock(lit, dis);
    }

    /** A block whose tables end past the input is cut short. */
    lemma {:induction false} LateIsCutOff(next: nat, lit: seq<nat>, dis: seq<nat>)
      requires Room()
      ensures next > 8 * |input| ==> Cut(Codes(input, next, out, lit, dis, Limit()))
    {
      var r := Codes(input, next, out, lit, dis, Limit());
      if r.Inflated? { CodesAdvance(input, next, out, lit, dis, Limit()); }
    }

    /** Decodes a stream.  What it returns is what the reference reads; and what the reference reads without
        running past the end of the input, it returns. */
    method ParseZlib(parseHeader: bool) returns (ok: bool)
      requires Room() && pos == 0 && out == []
      requires zLength.Shape() && zDistance.Shape() && zLength.Repr() !! zDistance.Repr()
      modifies this, zLength.Repr(), zDistance.Repr()
      ensures Room() && Limit() == old(Limit())
      ensures ok ==> Stream(input, parseHeader, Limit()) == Inflated(at, out)
      ensures !ok ==> Cut(Stream(input, parseHeader, Limit()))
    {
      if parseHeader {
        ok := ParseZlibHeader();
        if !ok { return; }
      }
      numBits, codeBuffer, hitZeof := 0, 0, false;
      at, end := 8 * pos, pos;
      assert Look(input, at, 0) == [];
      ok := ParseBlocks();
    }

    method ParseBlocks() returns (ok: bool)
      requires Valid() && Room() && zLength.Shape() && zDistance.Shape() && zLength.Repr() !! zDistance.Repr()
      modifies this, zLength.Repr(), zDistance.Repr()
      ensures Room() && Limit() == old(Limit())
      ensures ok ==> Blocks(input, old(at), old(out), Limit()) == Inflated(at, out)
      ensures !ok ==> Cut(Blocks(input, old(at), old(out), Limit()))
    {
      ghost var limit := Limit();
      ghost var whole := Blocks(input, at, out, limit);
      var final := false;
      while !final
        invariant Valid() && Room() && Limit() == limit
        invariant if final then whole == Inflated(at, out) else Blocks(input, at, out, limit) == whole
        decreases !final, 8 * |input| - at
      {
        ghost var at0, out0 := at, out;
        ok, final := ParseBlock();
        BlocksStep(input, at0, out0, limit);
        if !ok {
          if whole.Inflated? { FirstBlock(input, at0, out0, limit); }
          return;
        }
      }
      ok := true;
    }
  }

  /** Everything the decoder reads, with or without a header. */
  ghost function Stream(input: seq<byte>, parseHeader: bool, limit: nat): Inflated {
    if parseHeader then Zlib(input, limit) else Blocks(input, 0, [], limit)
  }

  lemma {:induction false} ByteValue(input: seq<byte>, at: nat, buffer: nat, n: nat, b: nat)
    requires Buffered(input, at, buffer, n) && at == 8 * b && n >= 8
    ensures And(buffer, 255) == ByteAt(input, b)
  {
    Pow2Values();
    DropBits(input, at, buffer, n, 8);
    LookByte(input, b);
    ValueOfBits(ByteAt(input, b), 8);
  }

  lemma {:induction false} FifthBit(flg: byte)
    ensures Bit(flg, 5) <==> (flg / 32) % 2 == 1
  {
    assert Bit(flg, 5) == Bit(flg / 2 / 2 / 2 / 2 / 2, 0);
  }

  lemma {:induction false} LowNibble(v: nat)
    ensures And(v, 15) == v % 16
  {
    Pow2Values();
    AndMask(v, 4);
  }

  lemma {:induction false} OneBit(input: seq<byte>, at: nat)
    ensures Value(Look(input, at, 1)) == if BitAt(input, at) then 1 else 0
  {
    var w := Look(input, at, 1);
    assert w[0] == BitAt(input, at) && w[1..] == [];
  }

  /** What a block is, by its kind. */
  lemma {:induction false} BlockIs(input: seq<byte>, at: nat, out: seq<byte>, limit: nat)
    ensures var kind, r := Value(Look(input, at + 1, 2)), Block(input, at, out, limit);
      && kind < 4
      && r == if kind == 0 then Stored(input, at + 3, out, limit)
              else if kind == 1 then Codes(input, at + 3, out, DefaultLengths(), DefaultDistances(), limit)
              else if kind == 2 then Dynamic(input, at + 3, out, limit) else Corrupt
  {
    hide Codes, Stored, Dynamic, Look, Value;
    assert Pow2(2) == 4 by { Pow2Values(); }
  }

  /** What a stored block is, by its header. */
  lemma {:induction false} StoredIs(input: seq<byte>, at: nat, out: seq<byte>, limit: nat, b: nat)
    requires b == (at + 7) / 8
    ensures var len, nlen := (ByteAt(input, b + 1) as int) * 256 + ByteAt(input, b), (ByteAt(input, b + 3) as int) * 256 + ByteAt(input, b + 2);
      Stored(input, at, out, limit)
      == if nlen != 65535 - len || (len > 0 && b + 4 + len > |input|) || |out| + len > limit then Corrupt
         else Inflated(8 * (b + 4 + len), out + if len > 0 then input[b + 4..b + 4 + len] else [])
  {
    hide ByteAt;
  }

  /** A block that starts past the end reads only zeros: a stored block with a wrong complement. */
  lemma {:induction false} PastTheEnd(input: seq<byte>, at: nat, out: seq<byte>, limit: nat)
    requires at >= 8 * |input|
    ensures Block(input, at, out, limit).Corrupt?
  {
    var w := Look(input, at + 1, 2);
    assert w[0] == BitAt(input, at + 1 + 0) && w[1] == BitAt(input, at + 1 + 1);
    assert w[1..][1..] == [];
    assert Value(w[1..]) == 0;
  }

  /** Reading the first of the remaining blocks. */
  lemma {:induction false} BlocksStep(input: seq<byte>, at: nat, out: seq<byte>, limit: nat)
    ensures var r, all := Block(input, at, out, limit), Blocks(input, at, out, limit);
      if at >= 8 * |input| then !r.Inflated? && all == Corrupt
      else if r.Inflated? && !BitAt(input, at) then r.at > at && all == Blocks(input, r.at, r.out, limit)
      else all == r && (r.Inflated? ==> r.at > at)
  {
    if at >= 8 * |input| {
      PastTheEnd(input, at, out, limit);
    } else if Block(input, at, out, limit).Inflated? {
      BlockAdvances(input, at, out, limit);
    }
  }

  lemma {:induction false} FirstBlock(input: seq<byte>, at: nat, out: seq<byte>, limit: nat)
    requires Blocks(input, at, out, limit).Inflated?
    ensures var r := Block(input, at, out, limit); r.Inflated? && r.at <= Blocks(input, at, out, limit).at
    decreases 8 * |input| - at
  {
    hide Block, Blocks;
    BlocksStep(input, at, out, limit);
    var r := Block(input, at, out, limit);
    if !BitAt(input, at) {
      FirstBlock(input, r.at, r.out, limit);
      BlocksStep(input, r.at, r.out, limit);
    }
  }

  lemma {:induction false} FirstToken(input: seq<byte>, at: nat, out: seq<byte>, lit: seq<nat>, dis: seq<nat>, limit: nat)
    requires Codes(input, at, out, lit, dis, limit).Inflated?
    ensures var r := ReadToken(input, at, lit, dis); r.Read? && r.at <= Codes(input, at, out, lit, dis, limit).at
  {
    match ReadToken(input, at, lit, dis)
    case Read(EndOfBlock, next) =>
    case Read(Literal(b), next) => CodesAdvance(input, next, out + [b], lit, dis, limit);
    case Read(Match(len, dist), next) => CodesAdvance(input, next, Copy(out, dist, len), lit, dis, limit);
  }
}
