/** LZW decoding as Appendix F of the GIF89a specification has it, against the decoder of the program. */
module GifReference {
  import opened Arithmetic
  import opened Bits
  import opened GifLzw

  const FULL: nat := 4096
  const WIDEST: nat := 12

  // ---- A table that stays in use when it is full ----

  function NextWidth(width: nat, avail: nat): nat { if avail == Pow2(width) && width < WIDEST then width + 1 else width }

  /** A full table takes no more entries, so that the encoder may put off its clear code. */
  function Extended(cs: nat, s: Strings, code: nat): Strings {
    var text := StringFor(cs, s, code);
    var entries := if s.previous != [] && text != [] && Avail(cs, s) < FULL then s.entries + [s.previous + [text[0]]] else s.entries;
    Strings(entries, text, NextWidth(s.width, Pow2(cs) + 2 + |entries|), s.first)
  }

  function AppendixF(data: seq<bool>, at: nat, cs: nat, s: Strings, out: seq<byte>): Raster
    requires s.width > 0
    decreases |data| - at
  {
    if at + s.width > |data| then Pixels(out)
    else
      var code, next := Value(data[at..at + s.width]), at + s.width;
      if code == Pow2(cs) then AppendixF(data, next, cs, Fresh(cs), out)
      else if code == Pow2(cs) + 1 then Pixels(out)
      else if code > Avail(cs, s) then IllegalCode
      else if s.first then NoClearCode
      else if s.previous == [] && code == Avail(cs, s) then IllegalCode
      else AppendixF(data, next, cs, Extended(cs, s, code), out + StringFor(cs, s, code))
  }

  /** The next free code after `n` codes since the last clear code. */
  function AvailAfter(cs: nat, n: nat): nat { Pow2(cs) + 2 + if n == 0 then 0 else n - 1 }

  /** More than 8191 - 2^cs codes are decoded without a clear code; `n` have been since the last one. */
  predicate TooLong(data: seq<bool>, at: nat, cs: nat, width: nat, n: nat, first: bool)
    requires width > 0
    decreases |data| - at
  {
    if at + width > |data| then false
    else
      var code, next := Value(data[at..at + width]), at + width;
      if code == Pow2(cs) then TooLong(data, next, cs, cs + 1, 0, false)
      else if code == Pow2(cs) + 1 || first || code > AvailAfter(cs, n) || (n == 0 && code == AvailAfter(cs, n)) then false
      else n >= MAX_CODES - 1 - Pow2(cs) || TooLong(data, next, cs, NextWidth(width, AvailAfter(cs, n + 1)), n + 1, first)
  }

  // ---- When the program agrees ----

  function Codes(s: Strings): nat { if s.previous == [] then 0 else |s.entries| + 1 }

  function Room(cs: nat): nat { if Pow2(cs) + 2 <= FULL then FULL - Pow2(cs) - 2 else 0 }

  /** `r` is the reference's table for the program's `s`: the entries that have a twelve-bit code. */
  predicate Tracks(cs: nat, s: Strings, r: Strings) {
    && r == s.(entries := if |s.entries| <= Room(cs) then s.entries else s.entries[..Room(cs)])
    && (s.previous == [] ==> s.entries == []) && (forall i :: 0 <= i < |s.entries| ==> s.entries[i] != [])
    && cs < s.width <= WIDEST && (s.width < WIDEST ==> Avail(cs, s) < Pow2(s.width))
  }

  lemma {:induction false} Sizes(cs: nat)
    requires 2 <= cs <= 11
    ensures 4 <= Pow2(cs) <= 2048 && Pow2(WIDEST) == FULL && Room(cs) == FULL - Pow2(cs) - 2 > 0
    ensures Pow2(cs + 1) == 2 * Pow2(cs)
  {
    Pow2Values();
    Pow2Monotone(2, cs);
    Pow2Monotone(cs, 11);
  }

  lemma {:induction false} FreshTracks(cs: nat, first: bool)
    requires 2 <= cs <= 11
    ensures Tracks(cs, Strings([], [], cs + 1, first), Strings([], [], cs + 1, first))
  {
    Sizes(cs);
  }

  /** Entries past the twelfth bit are never named. */
  lemma {:induction false} SameString(cs: nat, s: Strings, r: Strings, code: nat)
    requires 2 <= cs <= 11 && Tracks(cs, s, r) && code < Pow2(s.width)
    ensures code > Avail(cs, s) <==> code > Avail(cs, r)
    ensures code > Avail(cs, s) <==> code > AvailAfter(cs, Codes(s))
    ensures s.previous == [] ==> (code == Avail(cs, s) <==> code == Avail(cs, r))
    ensures code <= Avail(cs, s) ==> StringFor(cs, s, code) == StringFor(cs, r, code)
  {
    Sizes(cs);
    Pow2Monotone(s.width, WIDEST);
  }

  lemma {:induction false} NotEmptyString(cs: nat, s: Strings, code: nat)
    requires forall i :: 0 <= i < |s.entries| ==> s.entries[i] != []
    requires code <= Avail(cs, s) && code != Pow2(cs) && code != Pow2(cs) + 1 && (s.previous == [] ==> code < Avail(cs, s))
    ensures StringFor(cs, s, code) != []
  {
  }

  /** Testing the low bits finds the same widths. */
  lemma {:induction false} SameWidth(width: nat, avail: nat)
    requires 0 < width <= WIDEST && avail > 0 && (width < WIDEST ==> avail <= Pow2(width))
    ensures Widened(width, avail) == NextWidth(width, avail)
    ensures NextWidth(width, avail) < WIDEST ==> avail < Pow2(NextWidth(width, avail))
  {
    Pow2Values();
    if width < WIDEST {
      Pow2Monotone(width, 11);
      if avail < Pow2(width) { Remainder(avail, 0, avail, Pow2(width)); } else { Multiple(1, Pow2(width)); }
      Pow2Monotone(width + 1, WIDEST);
    } else if avail < FULL {
      Remainder(avail, 0, avail, FULL);
    }
  }

  /** The tables after a code, entry by entry. */
  lemma {:induction false} StillEntries(cs: nat, s: Strings, r: Strings, code: nat)
    requires 2 <= cs <= 11 && Tracks(cs, s, r) && code < Pow2(s.width)
    requires code <= Avail(cs, s) && code != Pow2(cs) && code != Pow2(cs) + 1 && (s.previous == [] ==> code < Avail(cs, s))
    ensures var s', r' := Entered(cs, s, code), Extended(cs, r, code);
      && s'.previous == r'.previous != [] && s'.first == r'.first == s.first && |s'.entries| == Codes(s)
      && r'.entries == (if |s'.entries| <= Room(cs) then s'.entries else s'.entries[..Room(cs)])
      && (forall i :: 0 <= i < |s'.entries| ==> s'.entries[i] != [])
  {
    hide StringFor, Widened, NextWidth, Pow2;
    Sizes(cs);
    SameString(cs, s, r, code);
    NotEmptyString(cs, s, code);
    var s', r' := Entered(cs, s, code), Extended(cs, r, code);
    if |s.entries| < Room(cs) {
      assert s'.entries == r'.entries;
    } else {
      assert r'.entries == r.entries && s'.entries[..Room(cs)] == s.entries[..Room(cs)];
    }
  }

  /** The widths after a code. */
  lemma {:induction false} StillWidths(cs: nat, s: Strings, r: Strings, avail: nat, avail': nat)
    requires 2 <= cs <= 11 && Tracks(cs, s, r) && Avail(cs, s) <= avail <= Avail(cs, s) + 1
    requires avail' == if avail <= FULL then avail else FULL
    ensures Widened(s.width, avail) == NextWidth(s.width, avail) == NextWidth(s.width, avail')
    ensures cs < NextWidth(s.width, avail) <= WIDEST
    ensures NextWidth(s.width, avail) < WIDEST ==> avail < Pow2(NextWidth(s.width, avail))
  {
    hide NextWidth, Pow2, Widened;
    Sizes(cs);
    SameWidth(s.width, avail);
    WidthGrows(s.width, avail);
    WidthGrows(s.width, avail');
    if avail > FULL { FullWidth(cs, s, r); }
  }

  lemma {:induction false} StillTracks(cs: nat, s: Strings, r: Strings, code: nat)
    requires 2 <= cs <= 11 && Tracks(cs, s, r) && code < Pow2(s.width)
    requires code <= Avail(cs, s) && code != Pow2(cs) && code != Pow2(cs) + 1 && (s.previous == [] ==> code < Avail(cs, s))
    ensures Tracks(cs, Entered(cs, s, code), Extended(cs, r, code))
    ensures Codes(Entered(cs, s, code)) == Codes(s) + 1
    ensures Entered(cs, s, code).width == NextWidth(s.width, AvailAfter(cs, Codes(s) + 1))
  {
    hide StringFor, Widened, NextWidth, Pow2;
    Sizes(cs);
    StillEntries(cs, s, r, code);
    StillWidths(cs, s, r, Avail(cs, Entered(cs, s, code)), Avail(cs, Extended(cs, r, code)));
  }

  lemma {:induction false} WidthGrows(width: nat, avail: nat)
    requires width <= WIDEST
    ensures width <= NextWidth(width, avail) <= WIDEST
    ensures width == WIDEST ==> NextWidth(width, avail) == width
  {
  }

  lemma {:induction false} FullWidth(cs: nat, s: Strings, r: Strings)
    requires 2 <= cs <= 11 && Tracks(cs, s, r) && Avail(cs, s) >= FULL
    ensures s.width == WIDEST
  {
    Sizes(cs);
    if s.width < WIDEST { Pow2Monotone(s.width, WIDEST); }
  }

  /** From any state on, the program gives what the reference gives, unless there are too many codes. */
  lemma {:induction false} Agrees(data: seq<bool>, at: nat, cs: nat, s: Strings, r: Strings, out: seq<byte>)
    requires 2 <= cs <= 11 && Tracks(cs, s, r)
    ensures Decode(data, at, cs, s, out)
         == if TooLong(data, at, cs, s.width, Codes(s), s.first) then TooManyCodes else AppendixF(data, at, cs, r, out)
    decreases |data| - at
  {
    hide StringFor, Entered, Extended, Tracks, Value, Avail, AvailAfter, NextWidth, Codes, Pow2;
    TracksFields(cs, s, r);
    if at + s.width <= |data| {
      var code, next := Value(data[at..at + s.width]), at + s.width;
      SameString(cs, s, r, code);
      if code == Pow2(cs) {
        FreshTracks(cs, false);
        CodesOfFresh(cs);
        Agrees(data, next, cs, Fresh(cs), Fresh(cs), out);
      } else if code != Pow2(cs) + 1 && code <= Avail(cs, s) && !s.first && !(s.previous == [] && code == Avail(cs, s)) {
        LimitIs(cs, s);
        if Codes(s) < MAX_CODES - 1 - Pow2(cs) {
          StillTracks(cs, s, r, code);
          EnteredFields(cs, s, r, code);
          Agrees(data, next, cs, Entered(cs, s, code), Extended(cs, r, code), out + StringFor(cs, s, code));
        }
      }
    }
  }

  lemma {:induction false} TracksFields(cs: nat, s: Strings, r: Strings)
    requires Tracks(cs, s, r)
    ensures s.width == r.width > 0 && s.previous == r.previous && s.first == r.first
    ensures Codes(s) == 0 <==> s.previous == []
    ensures Avail(cs, s) == AvailAfter(cs, Codes(s))
  {
  }

  lemma {:induction false} CodesOfFresh(cs: nat)
    ensures Codes(Fresh(cs)) == 0 && Fresh(cs) == Strings([], [], cs + 1, false)
  {
  }

  lemma {:induction false} EnteredFields(cs: nat, s: Strings, r: Strings, code: nat)
    ensures Entered(cs, s, code).first == s.first
  {
  }

  lemma {:induction false} LimitIs(cs: nat, s: Strings)
    requires 2 <= cs <= 11
    ensures s.previous != [] && Avail(cs, s) >= MAX_CODES <==> Codes(s) >= MAX_CODES - 1 - Pow2(cs)
  {
    Sizes(cs);
  }

  lemma {:induction false} NeverTooMany(data: seq<bool>, at: nat, cs: nat, s: Strings, out: seq<byte>)
    requires s.width > 0
    ensures AppendixF(data, at, cs, s, out) != TooManyCodes
    decreases |data| - at
  {
    hide StringFor, Value;
    if at + s.width <= |data| {
      var code, next := Value(data[at..at + s.width]), at + s.width;
      NeverTooMany(data, next, cs, Fresh(cs), out);
      NeverTooMany(data, next, cs, Extended(cs, s, code), out + StringFor(cs, s, code));
    }
  }

  function Begin(cs: nat): Strings { Strings([], [], cs + 1, true) }

  /** For every raster, the program decodes as Appendix F does exactly when no more than 8191 - 2^cs codes
      follow one another without a clear code; where there are more it reports too many codes. */
  lemma {:induction false} AgreesIff(data: seq<bool>, cs: nat)
    requires 2 <= cs <= 11
    ensures Decode(data, 0, cs, Begin(cs), []) == AppendixF(data, 0, cs, Begin(cs), []) <==> !TooLong(data, 0, cs, cs + 1, 0, true)
    ensures TooLong(data, 0, cs, cs + 1, 0, true) ==> Decode(data, 0, cs, Begin(cs), []) == TooManyCodes
  {
    hide Decode, AppendixF, TooLong;
    FreshTracks(cs, true);
    Agrees(data, 0, cs, Begin(cs), Begin(cs), []);
    NeverTooMany(data, 0, cs, Begin(cs), []);
  }

  // ---- A raster the program refuses ----

  predicate ZeroFrom(data: seq<bool>, at: nat) { forall i :: at <= i < |data| ==> !data[i] }

  lemma {:induction false} ZeroValue(b: seq<bool>)
    requires forall i :: 0 <= i < |b| ==> !b[i]
    ensures Value(b) == 0
  {
    if b != [] { ZeroValue(b[1..]); }
  }

  lemma {:induction false} ZerosTooLong(data: seq<bool>, at: nat, width: nat, n: nat)
    requires ZeroFrom(data, at) && 0 < width <= WIDEST && n <= 8063 && at + WIDEST * (8064 - n) <= |data|
    ensures TooLong(data, at, 7, width, n, false)
    decreases |data| - at
  {
    hide Value, NextWidth;
    assert Pow2(7) == 128 by { Pow2Values(); }
    ZeroValue(data[at..at + width]);
    if n < 8063 {
      WidthGrows(width, AvailAfter(7, n + 1));
      ZerosTooLong(data, at + width, NextWidth(width, AvailAfter(7, n + 1)), n + 1);
    }
  }

  lemma {:induction false} ZerosDecode(data: seq<bool>, at: nat, s: Strings, out: seq<byte>)
    requires ZeroFrom(data, at) && s.width > 0 && !s.first
    ensures AppendixF(data, at, 7, s, out).Pixels?
    decreases |data| - at
  {
    hide Value, StringFor;
    assert Pow2(7) == 128 by { Pow2Values(); }
    if at + s.width <= |data| {
      ZeroValue(data[at..at + s.width]);
      ZerosDecode(data, at + s.width, Extended(7, s, 0), out + StringFor(7, s, 0));
    }
  }

  lemma {:induction false} ClearThenZeros(m: nat)
    ensures var data := BitsOfBytes([0x80] + seq<byte>(m, _ => 0));
      |data| == 8 * (m + 1) && ZeroFrom(data, 8) && Value(data[0..8]) == 128
  {
    var bytes := [0x80] + seq<byte>(m, _ => 0);
    var data := BitsOfBytes(bytes);
    forall i | 8 <= i < |data| ensures !data[i] {
      BitsOfByte(bytes, i / 8, i % 8);
      BitsOfZero(8);
    }
    assert data[0..8] == BitsOf(0x80, 8);
    ValueOfBits(0x80, 8);
    Pow2Values();
  }

  /** 0x80, a clear code for 7-bit pixels, and enough zeros: Appendix F gives pixels, the program an error. */
  lemma {:induction false} DeferredClearIsRefused(m: nat)
    requires m >= 12096
    ensures var data := BitsOfBytes([0x80] + seq<byte>(m, _ => 0));
      Decode(data, 0, 7, Begin(7), []) == TooManyCodes && AppendixF(data, 0, 7, Begin(7), []).Pixels?
  {
    hide Value, Decode, NextWidth, StringFor;
    var data := BitsOfBytes([0x80] + seq<byte>(m, _ => 0));
    assert Pow2(7) == 128 by { Pow2Values(); }
    ClearThenZeros(m);
    ZerosTooLong(data, 8, 8, 0);
    ZerosDecode(data, 8, Fresh(7), []);
    assert TooLong(data, 0, 7, 8, 0, true);
    AgreesIff(data, 7);
  }
}
