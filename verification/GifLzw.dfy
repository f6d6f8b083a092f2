/** GIF's LZW decoder: a table of prefix links against a decoder that keeps every entry as a whole string. */
module GifLzw {
  import opened Arithmetic
  import opened Bits
  import opened BitReversal
  import opened ZTables

  const MAX_CODES: nat := 8192

  // ---- The decoder on whole strings, with the program's own limits; GifReference compares it with the specification ----

  datatype Raster = Pixels(pixels: seq<byte>) | NoClearCode | TooManyCodes | IllegalCode | BadCodeSize

  /** Strings for the codes after the end-of-stream code, what was decoded last, and the code width. */
  datatype Strings = Strings(entries: seq<seq<byte>>, previous: seq<byte>, width: nat, first: bool)

  function Fresh(cs: nat): Strings { Strings([], [], cs + 1, false) }

  function Avail(cs: nat, s: Strings): nat { Pow2(cs) + 2 + |s.entries| }

  /** What a code stands for; the code about to be entered repeats the previous string's first pixel. */
  function StringFor(cs: nat, s: Strings, code: nat): seq<byte> {
    if code < Pow2(cs) then [code % 256]
    else if code < Pow2(cs) + 2 then []
    else if code < Avail(cs, s) then s.entries[code - Pow2(cs) - 2]
    else if s.previous != [] then s.previous + [s.previous[0]]
    else []
  }

  /** The codes grow by a bit each time the table fills the current width, up to twelve bits. */
  function Widened(width: nat, avail: nat): nat { if avail % Pow2(width) == 0 && avail <= 0x0FFF then width + 1 else width }

  /** The table after a code that is neither of the two special ones. */
  function Entered(cs: nat, s: Strings, code: nat): Strings {
    var text := StringFor(cs, s, code);
    var entries := if s.previous != [] && text != [] then s.entries + [s.previous + [text[0]]] else s.entries;
    Strings(entries, text, Widened(s.width, Pow2(cs) + 2 + |entries|), s.first)
  }

  function Decode(data: seq<bool>, at: nat, cs: nat, s: Strings, out: seq<byte>): Raster
    requires s.width > 0
    decreases |data| - at
  {
    if at + s.width > |data| then Pixels(out)
    else
      var code, next := Value(data[at..at + s.width]), at + s.width;
      if code == Pow2(cs) then Decode(data, next, cs, Fresh(cs), out)
      else if code == Pow2(cs) + 1 then Pixels(out)
      else if code > Avail(cs, s) then IllegalCode
      else if s.first then NoClearCode
      else if s.previous == [] && code == Avail(cs, s) then IllegalCode
      else if s.previous != [] && Avail(cs, s) >= MAX_CODES then TooManyCodes
      else Decode(data, next, cs, Entered(cs, s, code), out + StringFor(cs, s, code))
  }

  /** One code of the string decoder. */
  lemma {:induction false} DecodeOne(data: seq<bool>, at: nat, cs: nat, s: Strings, out: seq<byte>)
    requires s.width > 0 && at + s.width <= |data|
    ensures var code, next, all := Value(data[at..at + s.width]), at + s.width, Decode(data, at, cs, s, out);
      if code == Pow2(cs) then all == Decode(data, next, cs, Fresh(cs), out)
      else if code == Pow2(cs) + 1 then all == Pixels(out)
      else if code > Avail(cs, s) then all == IllegalCode
      else if s.first then all == NoClearCode
      else if s.previous == [] && code == Avail(cs, s) then all == IllegalCode
      else if s.previous != [] && Avail(cs, s) >= MAX_CODES then all == TooManyCodes
      else all == Decode(data, next, cs, Entered(cs, s, code), out + StringFor(cs, s, code))
  {
    hide Value, Pow2, Entered, StringFor, Avail, Fresh;
  }

  /** The sub-blocks' data, up to an empty one. */
  function Payload(input: seq<byte>, pos: nat): seq<byte>
    decreases |input| - pos
  {
    if pos >= |input| || input[pos] == 0 then []
    else Padded(input, pos + 1, input[pos]) + Payload(input, pos + 1 + input[pos])
  }

  /** `n` bytes from `pos`, with zeros past the end. */
  function Padded(input: seq<byte>, pos: nat, n: nat): (r: seq<byte>)
    ensures |r| == n
  {
    seq<byte>(n, i requires 0 <= i < n => ByteAt(input, pos + i))
  }

  // ---- The table of prefix links ----

  datatype Entry = Entry(prefix: int, first: byte, suffix: byte)

  /** Codes below `avail`, except the two special ones, have an entry; every prefix is below its own index. */
  ghost predicate Linked(codes: seq<Entry>, clear: nat, avail: nat) {
    && clear + 2 <= avail <= |codes| == MAX_CODES
    && (forall c :: 0 <= c < clear ==> codes[c] == Entry(-1, c % 256, c % 256))
    && forall c :: clear + 2 <= c < avail ==> 0 <= codes[c].prefix < c && HasEntry(codes[c].prefix, clear, c)
  }

  predicate HasEntry(code: int, clear: nat, avail: nat) { 0 <= code < clear || clear + 2 <= code < avail }

  /** The string a code's links spell, first pixel first. */
  ghost function Spelled(codes: seq<Entry>, clear: nat, avail: nat, code: nat): (r: seq<byte>)
    requires Linked(codes, clear, avail) && HasEntry(code, clear, avail)
    ensures r != []
    decreases code
  {
    (if codes[code].prefix >= 0 then Spelled(codes, clear, avail, codes[code].prefix) else []) + [codes[code].suffix]
  }

  /** The links spell the string decoder's strings, and each entry knows its first pixel. */
  ghost predicate Spells(codes: seq<Entry>, clear: nat, entries: seq<seq<byte>>) {
    && Linked(codes, clear, clear + 2 + |entries|)
    && forall c: nat :: HasEntry(c, clear, clear + 2 + |entries|) ==>
         Spelled(codes, clear, clear + 2 + |entries|, c) == StringOf(clear, entries, c)
         && codes[c].first == StringOf(clear, entries, c)[0]
  }

  function StringOf(clear: nat, entries: seq<seq<byte>>, c: nat): seq<byte>
    requires HasEntry(c, clear, clear + 2 + |entries|)
  {
    if c < clear then [c % 256] else entries[c - clear - 2]
  }

  /** Changing only entries from `avail` on leaves the spellings alone. */
  lemma {:induction false} SameSpelling(codes: seq<Entry>, codes': seq<Entry>, clear: nat, avail: nat, avail': nat, c: nat)
    requires Linked(codes, clear, avail) && Linked(codes', clear, avail') && avail <= avail' && HasEntry(c, clear, avail)
    requires forall k :: 0 <= k < avail ==> codes[k] == codes'[k]
    ensures Spelled(codes, clear, avail, c) == Spelled(codes', clear, avail', c)
    decreases c
  {
    if codes[c].prefix >= 0 { SameSpelling(codes, codes', clear, avail, avail', codes[c].prefix); }
  }

  lemma {:induction false} LinkedGrows(codes: seq<Entry>, clear: nat, avail: nat, e: Entry)
    requires Linked(codes, clear, avail) && avail < MAX_CODES && HasEntry(e.prefix, clear, avail)
    ensures Linked(codes[avail := e], clear, avail + 1)
  {
  }

  lemma {:induction false} SpellsAt(codes: seq<Entry>, clear: nat, entries: seq<seq<byte>>, c: nat)
    requires Spells(codes, clear, entries) && HasEntry(c, clear, clear + 2 + |entries|)
    ensures Linked(codes, clear, clear + 2 + |entries|) && c < |codes| == MAX_CODES
    ensures Spelled(codes, clear, clear + 2 + |entries|, c) == StringOf(clear, entries, c)
    ensures codes[c].first == StringOf(clear, entries, c)[0]
  {
  }

  /** A new entry spells the previous string and one more pixel. */
  lemma {:induction false} NewEntry(codes: seq<Entry>, clear: nat, entries: seq<seq<byte>>, oldcode: nat, e: Entry)
    requires Spells(codes, clear, entries) && HasEntry(oldcode, clear, clear + 2 + |entries|)
    requires clear + 2 + |entries| < MAX_CODES
    requires e.prefix == oldcode && e.first == codes[oldcode].first
    ensures Spells(codes[clear + 2 + |entries| := e], clear, entries + [StringOf(clear, entries, oldcode) + [e.suffix]])
  {
    hide Linked, Spelled;
    var avail := clear + 2 + |entries|;
    SpellsAt(codes, clear, entries, oldcode);
    var codes' := codes[avail := e];
    var entries' := entries + [StringOf(clear, entries, oldcode) + [e.suffix]];
    LinkedGrows(codes, clear, avail, e);
    SameSpelling(codes, codes', clear, avail, avail + 1, oldcode);
    SpelledStep(codes', clear, avail + 1, avail);
    SpellsAt(codes, clear, entries, oldcode);
    forall c: nat | HasEntry(c, clear, avail + 1)
      ensures Spelled(codes', clear, avail + 1, c) == StringOf(clear, entries', c) && codes'[c].first == StringOf(clear, entries', c)[0]
    {
      if c < avail {
        SpellsAt(codes, clear, entries, c);
        SameSpelling(codes, codes', clear, avail, avail + 1, c);
      }
    }
  }

  lemma {:induction false} SpelledStep(codes: seq<Entry>, clear: nat, avail: nat, c: nat)
    requires Linked(codes, clear, avail) && HasEntry(c, clear, avail) && codes[c].prefix >= 0
    ensures HasEntry(codes[c].prefix, clear, avail)
    ensures Spelled(codes, clear, avail, c) == Spelled(codes, clear, avail, codes[c].prefix) + [codes[c].suffix]
  {
  }

  /** After a clear code only the single pixels are left. */
  lemma {:induction false} Cleared(codes: seq<Entry>, clear: nat)
    requires clear + 2 <= |codes| == MAX_CODES && forall c :: 0 <= c < clear ==> codes[c] == Entry(-1, c % 256, c % 256)
    ensures Spells(codes, clear, [])
  {
    forall c: nat | HasEntry(c, clear, clear + 2)
      ensures Spelled(codes, clear, clear + 2, c) == StringOf(clear, [], c) && codes[c].first == StringOf(clear, [], c)[0]
    {
    }
  }

  // ---- The decoder ----

  class Gif {
    const input: seq<byte>
    var pos: nat
    const codes: array<Entry>
    var pixels: seq<byte>
    var len: nat
    var bits: nat
    var validBits: nat
    var codesize: nat
    var avail: nat
    var oldcode: int
    var first: bool
    /** The data of the sub-blocks, how many bits have been taken and bytes loaded, and the strings entered. */
    ghost const data: seq<byte>
    ghost var at: nat
    ghost var loaded: nat
    ghost var entries: seq<seq<byte>>

    constructor (bytes: seq<byte>, start: nat)
      ensures input == bytes && pos == start && data == Payload(bytes, start) && codes.Length == MAX_CODES && fresh(codes)
    {
      input, pos, data := bytes, start, Payload(bytes, start);
      codes := new Entry[MAX_CODES](_ => Entry(0, 0, 0));
      pixels, len, bits, validBits, codesize, avail, oldcode, first := [], 0, 0, 0, 0, 0, 0, false;
      at, loaded, entries := 0, 0, [];
    }

    /** The bits in the buffer come next, and the rest of the sub-blocks after them. */
    ghost predicate Reading()
      reads this
    {
      && bits < Pow2(validBits) && validBits <= 24 && at + validBits == 8 * loaded && loaded <= |data|
      && BitsOf(bits, validBits) == BitsOfBytes(data)[at..8 * loaded]
      && data[loaded..] == Padded(input, pos, len) + Payload(input, pos + len)
    }

    /** The table holds the strings, and the previous code is one of them. */
    ghost predicate Holds(cs: nat)
      reads this, codes
    {
      && cs <= 12 && codes.Length == MAX_CODES && avail == Pow2(cs) + 2 + |entries| <= MAX_CODES
      && Spells(codes[..], Pow2(cs), entries) && 1 <= codesize <= 13
      && -1 <= oldcode && (oldcode >= 0 ==> HasEntry(oldcode, Pow2(cs), avail)) && (oldcode < 0 ==> entries == [])
    }

    /** The state as the string decoder keeps it. */
    ghost function State(cs: nat): Strings
      requires Holds(cs)
      reads this, codes
    {
      Strings(entries, if oldcode >= 0 then StringOf(Pow2(cs), entries, oldcode) else [], codesize, first)
    }

    /** Emits a code's pixels: those of its prefix, then its own. */
    method OutGifCode(code: nat, ghost clear: nat)
      requires Linked(codes[..], clear, avail) && HasEntry(code, clear, avail)
      modifies this`pixels
      ensures pixels == old(pixels) + Spelled(codes[..], clear, avail, code)
      decreases code
    {
      if codes[code].prefix >= 0 {
        OutGifCode(codes[code].prefix, clear);
      }
      pixels := pixels + [codes[code].suffix];
    }

    /** Loads a byte, starting a new sub-block when needed; false at the empty sub-block. */
    method LoadByte() returns (more: bool)
      requires Reading() && validBits <= 12
      modifies this`pos, this`len, this`bits, this`validBits, this`loaded
      ensures if more then Reading() && validBits == old(validBits) + 8 else loaded == |data| && at + old(validBits) == 8 * loaded
    {
      hide Or, ShiftLeft, BitsOf, BitsOfBytes, Pow2, Padded, Payload, ByteAt;
      StartBlock(input, pos);
      if len == 0 {
        len := ByteAt(input, pos);
        if len == 0 {
          assert data[loaded..] == [];
          return false;
        }
        pos := pos + 1;
      }
      NextByte(input, pos, len, data, loaded);
      LoadBits(bits, validBits, data, at, loaded);
      len := len - 1;
      bits := Or(bits, ShiftLeft(ByteAt(input, pos), validBits));
      validBits := validBits + 8;
      pos := pos + 1;
      loaded := loaded + 1;
      more := true;
    }

    /** Takes the next code out of the buffer. */
    method TakeCode() returns (code: nat)
      requires Reading() && validBits >= codesize && codesize <= 13
      modifies this`bits, this`validBits, this`at
      ensures Reading() && at == old(at) + codesize && at <= 8 * |data| && validBits == old(validBits) - codesize
      ensures code == Value(BitsOfBytes(data)[old(at)..at]) < Pow2(codesize)
    {
      hide And, ShiftRight, BitsOf, BitsOfBytes, Value, Padded, Payload, Pow2;
      DropCode(bits, validBits, codesize, BitsOfBytes(data), at, 8 * loaded);
      code := And(bits, Pow2(codesize) - 1);
      bits := ShiftRight(bits, codesize);
      validBits := validBits - codesize;
      at := at + codesize;
    }

    /** Sets up the single-pixel codes. */
    method InitCodes(cs: nat)
      requires codes.Length == MAX_CODES && cs <= 12
      modifies codes
      ensures Spells(codes[..], Pow2(cs), [])
    {
      var clear := Clear(cs);
      for initCode := 0 to clear
        invariant forall c :: 0 <= c < initCode ==> codes[c] == Entry(-1, c % 256, c % 256)
      {
        codes[initCode] := Entry(-1, initCode % 256, initCode % 256);
      }
      Cleared(codes[..], clear);
    }

    method Clear(cs: nat) returns (clear: nat)
      requires cs <= 12
      ensures clear == Pow2(cs) <= 4096
    {
      Pow2Values();
      Pow2Monotone(cs, 12);
      clear := Pow2(cs);
    }

    /** Forgets all entered strings. */
    method ClearTable(cs: nat)
      requires Holds(cs)
      modifies this`codesize, this`avail, this`oldcode, this`first, this`entries
      ensures Holds(cs) && State(cs) == Fresh(cs)
    {
      var clear := Clear(cs);
      codesize := cs + 1;
      avail := clear + 2;
      oldcode := -1;
      first := false;
      entries := [];
      Cleared(codes[..], clear);
    }

    /** Fills in the entry for the previous code and this code's first pixel, which may be the entry's own. */
    method FillEntry(p: nat, code: nat) returns (ghost e: Entry)
      requires codes.Length == MAX_CODES && 0 <= oldcode < p < MAX_CODES && code <= p
      modifies codes
      ensures codes[..] == old(codes[..])[p := e] && e.prefix == oldcode && e.first == old(codes[oldcode]).first
      ensures e.suffix == if code == p || code == avail then e.first else old(codes[code]).first
    {
      codes[p] := codes[p].(prefix := oldcode);
      codes[p] := codes[p].(first := codes[oldcode].first);
      codes[p] := codes[p].(suffix := if code == avail then codes[p].first else codes[code].first);
      e := codes[p];
    }

    /** Enters the previous string and the first pixel of this code's. */
    method EnterCode(code: nat, cs: nat)
      requires Holds(cs) && oldcode >= 0 && avail < MAX_CODES && code <= avail && (code < Pow2(cs) || code >= Pow2(cs) + 2)
      modifies this`avail, this`entries, codes
      ensures codes.Length == MAX_CODES
      ensures Spells(codes[..], Pow2(cs), entries) && avail == old(avail) + 1 == Pow2(cs) + 2 + |entries|
      ensures entries == Entered(cs, old(State(cs)), code).entries
    {
      hide Spells, Entered, StringOf, Pow2;
      SpellsAt(codes[..], Pow2(cs), entries, oldcode);
      ghost var before := codes[..];
      var p := avail;
      avail := avail + 1;
      ghost var e := FillEntry(p, code);
      EnteredIs(before, cs, entries, oldcode, codesize, first, code, e);
      NewEntry(before, Pow2(cs), entries, oldcode, e);
      entries := entries + [StringOf(Pow2(cs), entries, oldcode) + [e.suffix]];
    }

    lemma {:induction false} PreviousIs(cs: nat)
      requires Holds(cs)
      ensures oldcode < 0 <==> State(cs).previous == []
      ensures avail == Avail(cs, State(cs)) && (oldcode < 0 ==> avail == Pow2(cs) + 2)
    {
      hide Spells;
      if oldcode >= 0 { NotEmpty(codes[..], Pow2(cs), entries, oldcode); }
    }

    /** Emits the pixels of a code that is in the table by now. */
    method EmitCode(code: nat, cs: nat, ghost s: Strings)
      requires cs <= 12 && avail == Pow2(cs) + 2 + |entries| <= MAX_CODES && codes.Length == MAX_CODES
      requires Spells(codes[..], Pow2(cs), entries) && HasEntry(code, Pow2(cs), avail)
      requires StringOf(Pow2(cs), entries, code) == StringFor(cs, s, code)
      modifies this`pixels
      ensures pixels == old(pixels) + StringFor(cs, s, code)
    {
      hide Spells;
      SpellsAt(codes[..], Pow2(cs), entries, code);
      OutGifCode(code, Pow2(cs));
    }

    method Widen()
      requires 1 <= codesize <= 13 && avail > 0
      modifies this`codesize
      ensures codesize == Widened(old(codesize), avail) && 1 <= codesize <= 13
    {
      AndMask(avail, codesize);
      NeverWider(codesize, avail);
      if And(avail, Pow2(codesize) - 1) == 0 && avail <= 0x0FFF {
        codesize := codesize + 1;
      }
    }

    /** A code that is neither of the two special ones. */
    method HandleCode(code: nat, cs: nat) returns (ok: bool, error: Raster)
      requires Holds(cs) && code != Pow2(cs) && code != Pow2(cs) + 1
      modifies this`pixels, this`codesize, this`avail, this`oldcode, this`entries, codes
      ensures ok ==> Holds(cs) && first == old(first)
      ensures var s := old(State(cs));
        if code > Avail(cs, s) then !ok && error == IllegalCode
        else if s.first then !ok && error == NoClearCode
        else if s.previous == [] && code == Avail(cs, s) then !ok && error == IllegalCode
        else if s.previous != [] && Avail(cs, s) >= MAX_CODES then !ok && error == TooManyCodes
        else ok && State(cs) == Entered(cs, s, code) && pixels == old(pixels) + StringFor(cs, s, code)
    {
      hide Spells, StringFor, Entered, Widened, StringOf;
      ghost var s := State(cs);
      PreviousIs(cs);
      error := IllegalCode;
      if code > avail {
        return false, error;
      }
      if first {
        return false, NoClearCode;
      }
      if oldcode >= 0 {
        if avail >= MAX_CODES {
          return false, TooManyCodes;
        }
        EnterCode(code, cs);
      } else if code == avail {
        return false, error;
      }
      EmittedIs(cs, s, code, entries);
      EmitCode(code, cs, s);
      Widen();
      oldcode := code;
      ok := true;
    }

    /** The decoder is where the string decoder is: what is left to decode gives `whole`. */
    ghost predicate At(cs: nat, whole: Raster)
      reads this, codes
    {
      Holds(cs) && Reading() && Decode(BitsOfBytes(data), at, cs, State(cs), pixels) == whole
    }

    /** The state before the first code: cleared, but a clear code is still due. */
    method Start(cs: nat)
      requires pos <= |input| && codes.Length == MAX_CODES && data == Payload(input, pos) && cs <= 12
      modifies this, codes
      ensures Holds(cs) && Reading() && at == 0 && State(cs) == Strings([], [], cs + 1, true) && pixels == old(pixels)
    {
      hide Spells, Decode;
      InitCodes(cs);
      var clear := Clear(cs);
      len, bits, validBits, codesize, avail, oldcode, first := 0, 0, 0, cs + 1, clear + 2, -1, true;
      at, loaded, entries := 0, 0, [];
      StartBlock(input, pos);
      assert data[0..] == data && BitsOfBytes(data)[0..0] == [] && BitsOf(0, 0) == [];
    }

    /** Loads a byte; without one the string decoder is done too. */
    method MoreData(cs: nat, ghost whole: Raster) returns (more: bool)
      requires At(cs, whole) && validBits < codesize
      modifies this`pos, this`len, this`bits, this`validBits, this`loaded
      ensures if more then At(cs, whole) && validBits == old(validBits) + 8 else whole == Pixels(pixels)
    {
      hide Spells, Value;
      more := LoadByte();
    }

    /** Takes one code and does what it says. */
    method DecodeCode(cs: nat, ghost whole: Raster) returns (done: bool, r: Raster)
      requires At(cs, whole) && validBits >= codesize
      modifies this, codes
      ensures if done then r == whole else At(cs, whole) && at > old(at)
    {
      hide Spells, Entered, StringFor, Widened, Value, BitsOf, BitsOfBytes, Payload, Padded, StringOf, Decode, Avail, Pow2;
      done, r := false, NoClearCode;
      ghost var s := State(cs);
      PreviousIs(cs);
      DecodeOne(BitsOfBytes(data), at, cs, s, pixels);
      var code := TakeCode();
      if code == Pow2(cs) {
        ClearTable(cs);
      } else if code == Pow2(cs) + 1 {
        return true, Pixels(pixels);
      } else {
        var ok, error := HandleCode(code, cs);
        return !ok, error;
      }
    }

    /** Decodes one image's pixels: for every stream, exactly what the string decoder gives. */
    method ProcessRaster(cs: nat) returns (r: Raster)
      requires pos <= |input| && codes.Length == MAX_CODES && data == Payload(input, pos) && pixels == []
      modifies this, codes
      ensures r == if cs > 12 then BadCodeSize
                   else Decode(BitsOfBytes(data), 0, cs, Strings([], [], cs + 1, true), [])
    {
      if cs > 12 {
        return BadCodeSize;
      }
      Start(cs);
      ghost var whole := Decode(BitsOfBytes(data), 0, cs, Strings([], [], cs + 1, true), []);
      while true
        invariant At(cs, whole)
        decreases 8 * |data| - at, 32 - validBits
      {
        if validBits < codesize {
          var more := MoreData(cs, whole);
          if !more {
            return Pixels(pixels);
          }
        } else {
          var done;
          done, r := DecodeCode(cs, whole);
          if done {
            return;
          }
        }
      }
    }
  }

  /** Codes never need more than thirteen bits. */
  lemma {:induction false} NeverWider(w: nat, avail: nat)
    requires 1 <= w <= 13 && avail > 0
    ensures avail % Pow2(w) == 0 && avail <= 0x0FFF ==> w < 13
  {
    Pow2Values();
    if w == 13 {
      assert Pow2(13) == 8192;
      Remainder(avail % 8192, 0, avail % 8192, 8192);
    }
  }

  /** What a code stands for is in the table once the new entry is made. */
  lemma {:induction false} EmittedIs(cs: nat, s: Strings, code: nat, entries: seq<seq<byte>>)
    requires code <= Avail(cs, s) && code != Pow2(cs) && code != Pow2(cs) + 1
    requires s.previous == [] ==> code < Avail(cs, s) && s.entries == [] && entries == []
    requires s.previous != [] ==> entries == Entered(cs, s, code).entries && |entries| == |s.entries| + 1
    ensures HasEntry(code, Pow2(cs), Pow2(cs) + 2 + |entries|)
    ensures StringOf(Pow2(cs), entries, code) == StringFor(cs, s, code)
    ensures Entered(cs, s, code) == Strings(entries, StringFor(cs, s, code), Widened(s.width, Pow2(cs) + 2 + |entries|), s.first)
  {
  }

  /** The entry made is the one the string decoder makes. */
  lemma {:induction false} EnteredIs(codes: seq<Entry>, cs: nat, entries: seq<seq<byte>>, oldcode: nat, width: nat, first: bool,
                                     code: nat, e: Entry)
    requires Spells(codes, Pow2(cs), entries) && |codes| == MAX_CODES && HasEntry(oldcode, Pow2(cs), Pow2(cs) + 2 + |entries|)
    requires Pow2(cs) + 2 + |entries| < MAX_CODES
    requires code <= Pow2(cs) + 2 + |entries| && (code < Pow2(cs) || code >= Pow2(cs) + 2)
    requires e.first == codes[oldcode].first && e.suffix == if code == Pow2(cs) + 2 + |entries| then e.first else codes[code].first
    ensures var old' := StringOf(Pow2(cs), entries, oldcode);
      Entered(cs, Strings(entries, old', width, first), code).entries == entries + [old' + [e.suffix]]
      && StringFor(cs, Strings(entries, old', width, first), code) != []
  {
    hide Spells;
    SpellsAt(codes, Pow2(cs), entries, oldcode);
    if code < Pow2(cs) + 2 + |entries| { SpellsAt(codes, Pow2(cs), entries, code); }
    NotEmpty(codes, Pow2(cs), entries, oldcode);
    if code < Pow2(cs) + 2 + |entries| { NotEmpty(codes, Pow2(cs), entries, code); }
  }

  lemma {:induction false} NotEmpty(codes: seq<Entry>, clear: nat, entries: seq<seq<byte>>, c: nat)
    requires Spells(codes, clear, entries) && HasEntry(c, clear, clear + 2 + |entries|)
    ensures StringOf(clear, entries, c) != []
  {
    SpellsAt(codes, clear, entries, c);
  }

  lemma {:induction false} DropCode(bits: nat, n: nat, w: nat, data: seq<bool>, at: nat, end: nat)
    requires w <= n && bits < Pow2(n) && at + n == end <= |data| && BitsOf(bits, n) == data[at..end]
    ensures And(bits, Pow2(w) - 1) == Value(data[at..at + w]) < Pow2(w)
    ensures ShiftRight(bits, w) < Pow2(n - w) && BitsOf(ShiftRight(bits, w), n - w) == data[at + w..end]
  {
    AndMask(bits, w);
    ShiftRightBound(bits, w, n - w);
    ShiftRightBits(bits, w, n - w);
    BitsOfPrefix(bits, w, n - w);
    Divide(bits, Pow2(w));
    BitsOfLow(bits % Pow2(w), bits / Pow2(w), w);
    ValueOfBits(bits % Pow2(w), w);
    assert data[at..end][..w] == data[at..at + w] && data[at..end][w..] == data[at + w..end];
  }

  lemma {:induction false} StartBlock(input: seq<byte>, pos: nat)
    ensures Padded(input, pos, 0) + Payload(input, pos) == Payload(input, pos)
    ensures Payload(input, pos) == if ByteAt(input, pos) == 0 then []
                                   else Padded(input, pos + 1, ByteAt(input, pos)) + Payload(input, pos + 1 + ByteAt(input, pos))
  {
  }

  lemma {:induction false} NextByte(input: seq<byte>, pos: nat, len: nat, data: seq<byte>, loaded: nat)
    requires len > 0 && loaded <= |data| && data[loaded..] == Padded(input, pos, len) + Payload(input, pos + len)
    ensures loaded < |data| && data[loaded] == ByteAt(input, pos)
    ensures data[loaded + 1..] == Padded(input, pos + 1, len - 1) + Payload(input, pos + len)
  {
    var block := Padded(input, pos, len);
    assert data[loaded..][0] == block[0] == ByteAt(input, pos + 0);
    assert block[1..] == Padded(input, pos + 1, len - 1);
    assert data[loaded + 1..] == data[loaded..][1..];
  }

  /** A byte goes in above the bits already there. */
  lemma {:induction false} LoadBits(bits: nat, n: nat, data: seq<byte>, at: nat, loaded: nat)
    requires bits < Pow2(n) && at + n == 8 * loaded && loaded < |data|
    requires BitsOf(bits, n) == BitsOfBytes(data)[at..8 * loaded]
    ensures var b := Or(bits, ShiftLeft(data[loaded], n));
      b < Pow2(n + 8) && BitsOf(b, n + 8) == BitsOfBytes(data)[at..8 * (loaded + 1)]
  {
    var c, all := data[loaded], BitsOfBytes(data);
    Pow2Values();
    PushBits(bits, n, c, 8);
    var next := all[8 * loaded..8 * (loaded + 1)];
    forall k | 0 <= k < 8 ensures next[k] == BitsOf(c, 8)[k] { BitsOfByte(data, loaded, k); }
    assert all[at..8 * (loaded + 1)] == all[at..8 * loaded] + next;
  }
}
