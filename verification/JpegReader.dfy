/** Reading Huffman symbols and signed values from JPEG entropy-coded data. */
module JpegReader {
  import opened Arithmetic
  import opened Bits
  import opened Canonical
  import opened JpegBits
  import opened JpegTables
  import opened Options

  /** The symbol whose code is next. */
  ghost function Symbol(lens: seq<nat>, raw: seq<byte>, at: nat): (r: Option<nat>)
    ensures r.Some? ==> Comes(lens, r.value, Peek(raw, at, LONGEST))
    ensures r.None? ==> forall i: nat :: !Comes(lens, i, Peek(raw, at, LONGEST))
  {
    if i: nat :| Comes(lens, i, Peek(raw, at, LONGEST)) then Some(i) else None
  }

  lemma {:induction false} SymbolIs(lens: seq<nat>, raw: seq<byte>, at: nat, i: nat)
    requires Accepted(lens) && Comes(lens, i, Peek(raw, at, LONGEST))
    ensures Symbol(lens, raw, at) == Some(i)
  {
    var s := Symbol(lens, raw, at);
    assert s.Some?;
    PrefixFree(lens, i, s.value, Peek(raw, at, LONGEST));
  }

  lemma {:induction false} NoSymbol(lens: seq<nat>, raw: seq<byte>, at: nat)
    requires forall i: nat :: !Comes(lens, i, Peek(raw, at, LONGEST))
    ensures Symbol(lens, raw, at).None?
  {
  }

  /** Section F.2.2.1 of ITU-T T.81: the value whose `t` magnitude bits are `v`. */
  function Extend(v: nat, t: nat): int
    requires t > 0
  {
    if v < Pow2(t - 1) then v - Pow2(t) + 1 else v
  }

  /** What the fast table says of the sixteen bits to come. */
  lemma {:induction false} FastIsFirst(lens: seq<nat>, k: nat, raw: seq<byte>, at: nat, c: nat)
    requires Accepted(lens) && FastEntry(lens, |lens|, k, c) && |lens| <= 256 && Sorted(lens)
    requires c == ValueMsb(Peek(raw, at, FAST_BITS))
    ensures k < 255 ==> k < |lens| && Comes(lens, k, Peek(raw, at, LONGEST))
    ensures k >= 255 ==> k == NOT_FAST && NoneShort(lens, Peek(raw, at, LONGEST))
  {
    var w := Peek(raw, at, LONGEST);
    PeekConcat(raw, at, FAST_BITS, LONGEST - FAST_BITS);
    assert w[..FAST_BITS] == Peek(raw, at, FAST_BITS);
    PrefixIsQuotient(w, FAST_BITS);
    Pow2Values();
    assert c == ValueMsb(w) / 128;
    if k < 255 {
      FitsIffMatches(lens, k, ValueMsb(w));
      PrefixIffMatches(lens, k, w);
    } else {
      forall i: nat | i < |lens| && lens[i] <= FAST ensures !Comes(lens, i, w) {
        FitsIffMatches(lens, i, ValueMsb(w));
        PrefixIffMatches(lens, i, w);
      }
    }
  }

  /** The symbol a long code stands for. */
  lemma {:induction false} SlowIsFirst(lens: seq<nat>, raw: seq<byte>, at: nat, s: nat) returns (i: nat)
    requires Accepted(lens) && Sorted(lens) && FAST < s <= LONGEST
    requires NoneShort(lens, Peek(raw, at, LONGEST))
    requires ValueMsb(Peek(raw, at, LONGEST)) < MaxCode(lens, s)
    requires s > FAST + 1 ==> ValueMsb(Peek(raw, at, LONGEST)) >= MaxCode(lens, s - 1)
    ensures i < |lens| && lens[i] == s && Comes(lens, i, Peek(raw, at, LONGEST))
    ensures i == ValueMsb(Peek(raw, at, s)) + Shorter(lens, s) - First(lens, s)
  {
    var w := Peek(raw, at, LONGEST);
    i := LongSymbol(lens, w, s);
    PeekConcat(raw, at, s, LONGEST - s);
    assert w[..s] == Peek(raw, at, s);
    PrefixIsQuotient(w, s);
    ShorterComeFirst(lens, s, i);
    CountBefore(lens, i, i);
  }

  class Reader {
    const input: seq<byte>
    var pos: nat
    var nomore: bool
    var codeBuffer: nat
    var codeBits: nat
    /** The unstuffed data, how many of its bits have been taken, and how many bytes loaded. */
    ghost const raw: seq<byte>
    ghost var at: nat
    ghost var loaded: nat

    ghost predicate Valid()
      reads this
    {
      && pos <= |input| && Buffered(raw, at, codeBuffer, codeBits) && at + codeBits == 8 * loaded
      && (if loaded < |raw| then !nomore && Unstuffed(input, pos) == raw[loaded..]
          else nomore || Unstuffed(input, pos) == [])
    }

    constructor (data: seq<byte>)
      ensures Valid() && input == data && raw == Unstuffed(data, 0) && at == 0 && codeBits == 0
    {
      input, pos, nomore, codeBuffer, codeBits := data, 0, false, 0, 0;
      raw, at, loaded := Unstuffed(data, 0), 0, 0;
      new;
      assert raw[0..] == raw && Peek(raw, 0, 0) == [];
      EmptyBuffer(raw);
    }

    /** The next byte of data, unless a marker ends it. */
    method NextData() returns (ok: bool, b: byte)
      requires Valid()
      modifies this`pos, this`nomore
      ensures pos <= |input| && codeBits == old(codeBits)
      ensures ok ==> b == (if loaded < |raw| then raw[loaded] else 0)
      ensures ok ==> if loaded + 1 < |raw| then !nomore && Unstuffed(input, pos) == raw[loaded + 1..]
                     else nomore || Unstuffed(input, pos) == []
      ensures !ok ==> nomore && loaded >= |raw|
    {
      hide Buffered;
      ghost var start := pos;
      b := 0;
      if !nomore && pos < |input| {
        b := input[pos];
        pos := pos + 1;
        if b == 0xff {
          while pos < |input| && input[pos] == 0xff
            invariant start < pos <= |input| && !nomore && SkipFill(input, pos) == SkipFill(input, start + 1)
          {
            pos := pos + 1;
          }
          if pos < |input| {
            var c := input[pos];
            pos := pos + 1;
            if c != 0 {
              nomore := true;
              return false, 0;
            }
          }
        }
        assert NextByte(input, start) == Data(b, pos);
      }
      ok := true;
    }

    method GrowByte() returns (ok: bool)
      requires Valid() && codeBits <= 24
      modifies this`pos, this`nomore, this`codeBuffer, this`codeBits, this`loaded
      ensures Valid()
      ensures if ok then codeBits == old(codeBits) + 8 else codeBits == old(codeBits) && loaded >= |raw|
    {
      hide Buffered, Unstuffed;
      var b;
      ok, b := NextData();
      if ok {
        NextFits(raw, at, codeBuffer, codeBits, loaded, b);
        codeBuffer := Or(codeBuffer, ShiftLeft(b, 24 - codeBits));
        codeBits := codeBits + 8;
        loaded := loaded + 1;
      }
    }

    /** Loads bytes until the buffer holds more than 24 bits or a marker is met. */
    method GrowBuffer()
      requires Valid() && codeBits <= 24
      modifies this`pos, this`nomore, this`codeBuffer, this`codeBits, this`loaded
      ensures Valid() && codeBits >= old(codeBits) && (codeBits > 24 || loaded >= |raw|)
    {
      var more := true;
      while more
        invariant Valid() && codeBits >= old(codeBits) && (if more then codeBits <= 24 else codeBits > 24 || loaded >= |raw|)
        decreases 32 - codeBits, more
      {
        more := GrowByte();
        if codeBits > 24 { more := false; }
      }
    }

    method Drop(s: nat)
      requires Valid() && s <= codeBits
      modifies this`codeBuffer, this`codeBits, this`at
      ensures Valid() && at == old(at) + s && codeBits == old(codeBits) - s
    {
      hide Buffered, Unstuffed;
      DropBits(raw, at, codeBuffer, codeBits, s);
      codeBuffer := ShiftedOut(codeBuffer, s);
      codeBits := codeBits - s;
      at := at + s;
    }

    /** The next `s` bits, as far as the buffer reaches or once the data has ended. */
    function Top(s: nat): nat
      requires s <= 32
      reads this
    {
      Div(codeBuffer, Pow2(32 - s))
    }

    lemma {:induction false} TopIs(s: nat)
      requires Valid() && s <= 32 && (s <= codeBits || loaded >= |raw|)
      ensures Top(s) == ValueMsb(Peek(raw, at, s)) < Pow2(s)
    {
      TopBits(raw, at, codeBuffer, codeBits, s);
    }

    /** Receives `n` bits and extends their sign.  When the data runs out it gives zero instead. */
    method ExtendReceive(n: nat) returns (v: int)
      requires Valid() && 1 <= n <= 15
      modifies this`pos, this`nomore, this`codeBuffer, this`codeBits, this`at, this`loaded
      ensures Valid()
      ensures (at == old(at) + n && v == Extend(ValueMsb(Peek(raw, old(at), n)), n))
           || (at == old(at) && v == 0 && at + n > 8 * |raw|)
    {
      hide Valid, Top, Peek, Pow2;
      if codeBits < n {
        GrowBuffer();
      }
      if codeBits < n {
        OutOfBits(n);
        return 0;
      }
      TopIs(1);
      TopIs(n);
      SignBit(raw, at, n);
      var sgn, k := Top(1), Top(n);
      Drop(n);
      v := k + if sgn == 0 then 1 - Pow2(n) else 0;
    }

    /** What a symbol read from here must be. */
    ghost predicate Reads(h: Huffman, lens: seq<nat>, from: nat, r: int, to: nat)
      requires h.values.Length == 256
      reads h.values
    {
      var s := Symbol(lens, raw, from);
      if r >= 0 then s.Some? && s.value < 256 && r == h.values[s.value] && to == from + lens[s.value]
      else s.None? || from + lens[s.value] > 8 * |raw|
    }

    lemma {:induction false} OutOfBits(s: nat)
      requires Valid() && s > codeBits && (codeBits >= 16 || loaded >= |raw|) && s <= 16
      ensures at + s > 8 * |raw|
    {
    }

    /** Reads one symbol.  A code that runs past the data is refused. */
    method HuffDecode(h: Huffman, ghost lens: seq<nat>) returns (r: int)
      requires Valid() && h.TablesFor(lens)
      modifies this`pos, this`nomore, this`codeBuffer, this`codeBits, this`at, this`loaded
      ensures Valid() && r < 256 && h.values.Length == 256 && Reads(h, lens, old(at), r, at)
    {
      hide Valid, Top, Huffman.TablesFor, Comes, NoneShort, FastEntry;
      BeforeDecoding(h, lens);
      ShortBuffer();
      TopIs(FAST_BITS);
      SmallIndex();
      var k, s := h.FastSymbol(Top(FAST_BITS), lens);
      FastIsFirst(lens, k, raw, at, Top(FAST_BITS));
      if k < 255 {
        SymbolIs(lens, raw, at, k);
        if s > codeBits {
          OutOfBits(s);
          return -1;
        }
        Drop(s);
        return h.values[k];
      }
      r := HuffDecodeSlow(h, lens);
    }

    lemma {:induction false} BeforeDecoding(h: Huffman, lens: seq<nat>)
      requires h.TablesFor(lens)
      ensures h.values.Length == 256 && Accepted(lens) && Sorted(lens) && |lens| <= 256
      ensures forall i :: 0 <= i < |lens| ==> lens[i] <= 16
    {
    }

    lemma {:induction false} SmallIndex()
      ensures Pow2(FAST_BITS) == FAST_SIZE && Pow2(16) == 0x10000
    {
      Pow2Values();
    }

    method ShortBuffer()
      requires Valid()
      modifies this`pos, this`nomore, this`codeBuffer, this`codeBits, this`loaded
      ensures Valid() && (codeBits >= 16 || loaded >= |raw|)
    {
      if codeBits < 16 {
        GrowBuffer();
      }
    }

    /** Codes of more than nine bits, compared with the preshifted bounds of each length. */
    method HuffDecodeSlow(h: Huffman, ghost lens: seq<nat>) returns (r: int)
      requires Valid() && h.TablesFor(lens) && NoneShort(lens, Peek(raw, at, LONGEST))
      requires codeBits >= 16 || loaded >= |raw|
      modifies this`codeBuffer, this`codeBits, this`at
      ensures Valid() && r < 256 && h.values.Length == 256 && Reads(h, lens, old(at), r, at)
    {
      hide Valid, Top, Huffman.TablesFor, Comes, NoneShort, Accepted, Sorted, MaxCode, Shorter, First, ValueMsb, Peek, Symbol;
      BeforeDecoding(h, lens);
      TopIs(16);
      SmallIndex();
      var k := SearchLength(Top(16), h, lens);
      if k == 17 {
        NoneLong(lens, Peek(raw, at, LONGEST), 16);
        NoSymbol(lens, raw, at);
        return -1;
      }
      ghost var i := SlowIsFirst(lens, raw, at, k);
      SymbolIs(lens, raw, at, i);
      if k > codeBits {
        OutOfBits(k);
        return -1;
      }
      TopIs(k);
      var delta := h.DeltaOf(k, lens);
      var c := Top(k) + delta;
      if c < 0 || c >= 256 {
        assert false;
      }
      Drop(k);
      return h.values[c];
    }
  }

  /** The first bit says whether the value is in the upper half. */
  lemma {:induction false} SignBit(raw: seq<byte>, at: nat, n: nat)
    requires n >= 1
    ensures ValueMsb(Peek(raw, at, 1)) == 0 <==> ValueMsb(Peek(raw, at, n)) < Pow2(n - 1)
  {
    var a, b := Peek(raw, at, 1), Peek(raw, at + 1, n - 1);
    PeekConcat(raw, at, 1, n - 1);
    ValueMsbConcat(a, b);
    if ValueMsb(a) > 0 { AtLeast(ValueMsb(a), Pow2(n - 1)); }
  }

  method SearchLength(temp: nat, h: Huffman, ghost lens: seq<nat>) returns (k: nat)
    requires h.TablesFor(lens) && temp < 0x10000
    ensures FAST < k <= 17
    ensures k < 17 ==> temp < MaxCode(lens, k)
    ensures k > FAST + 1 ==> temp >= MaxCode(lens, k - 1)
  {
    k := FAST_BITS + 1;
    while temp >= h.maxcode[k]
      invariant FAST < k <= 17 && (k > FAST + 1 ==> temp >= h.maxcode[k - 1])
      decreases 17 - k
    {
      k := k + 1;
    }
  }

  lemma {:induction false} EmptyBuffer(raw: seq<byte>)
    ensures Buffered(raw, 0, 0, 0)
  {
    ValueMsbZeros(0);
    assert Peek(raw, 0, 0) == Zeros(0);
  }

  lemma {:induction false} NextFits(raw: seq<byte>, at: nat, buffer: nat, n: nat, loaded: nat, b: byte)
    requires Buffered(raw, at, buffer, n) && n <= 24 && at + n == 8 * loaded
    requires b == if loaded < |raw| then raw[loaded] else 0
    ensures Buffered(raw, at, Or(buffer, ShiftLeft(b, 24 - n)), n + 8)
  {
    PeekByte(raw, loaded, b);
    AddByte(raw, at, buffer, n, b);
  }
}
