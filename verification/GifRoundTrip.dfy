/** LZW encoding as Appendix F of the GIF89a specification has it: any way of cutting pixels into strings of the
    table, and that both decoders give the pixels back. */
module GifRoundTrip {
  import opened Bits
  import opened GifLzw
  import opened GifReference

  // ---- Encoding ----

  /** The k-th string entered after a clear code: the k-th word sent and the first pixel of the next. */
  function Entry(words: seq<seq<byte>>, k: nat): seq<byte>
    requires k + 1 < |words| && words[k + 1] != []
  {
    words[k] + [words[k + 1][0]]
  }

  /** The code names the word in place `i`: a single pixel, or a string entered before the word is sent, the last
      of which takes its last pixel from the word itself. */
  predicate Names(words: seq<seq<byte>>, i: nat, code: nat, cs: nat)
    requires i < |words| && forall k :: 0 <= k < |words| ==> words[k] != []
  {
    if code < Pow2(cs) then words[i] == [code % 256]
    else
      var k := code - Pow2(cs) - 2;
      0 <= k < i && code < FULL && words[i] == Entry(words, k)
  }

  /** How wide a code is that comes after `n` others: as wide as the codes in use, of nine bits for 8-bit pixels to
      twelve. */
  predicate WideEnough(width: nat, cs: nat, n: nat) {
    && cs < width <= WIDEST && (width < WIDEST ==> AvailAfter(cs, n) < Pow2(width))
    && (width > cs + 1 ==> Pow2(width - 1) <= AvailAfter(cs, n))
  }

  /** The words sent from one clear code to the next. */
  datatype Run = Run(cs: nat, words: seq<seq<byte>>, codes: seq<nat>, widths: seq<nat>) {
    ghost predicate Valid() {
      && 2 <= cs <= 8 && |codes| == |words| && |widths| == |words| + 1
      && (forall k :: 0 <= k < |words| ==> words[k] != [])
      && (forall i :: 0 <= i < |words| ==> Names(words, i, codes[i], cs))
      && forall i :: 0 <= i < |widths| ==> WideEnough(widths[i], cs, i)
    }

    /** The codes from place `i` on. */
    function BitsFrom(i: nat): seq<bool>
      requires |codes| == |words| && |widths| == |words| + 1 && i <= |words|
      decreases |words| - i
    {
      if i == |words| then [] else BitsOf(codes[i], widths[i]) + BitsFrom(i + 1)
    }
  }

  /** Some runs, all for pixels of `cs` bits. */
  ghost predicate AllValid(cs: nat, runs: seq<Run>) { 2 <= cs <= 8 && forall k :: 0 <= k < |runs| ==> runs[k].Valid() && runs[k].cs == cs }

  /** How wide a code is that comes after the runs. */
  ghost function WidthAfter(cs: nat, runs: seq<Run>): (r: nat)
    requires AllValid(cs, runs)
    ensures r > 0
  {
    if runs == [] then cs + 1
    else
      var z := runs[|runs| - 1];
      assert WideEnough(z.widths[|z.words|], cs, |z.words|);
      z.widths[|z.words|]
  }

  function WordsIn(runs: seq<Run>): nat { if runs == [] then 0 else |runs[|runs| - 1].words| }

  /** Each run follows a clear code. */
  ghost function BitsOfRuns(cs: nat, runs: seq<Run>): seq<bool>
    requires AllValid(cs, runs)
  {
    if runs == [] then []
    else
      var k := |runs| - 1;
      BitsOfRuns(cs, runs[..k]) + (BitsOf(Pow2(cs), WidthAfter(cs, runs[..k])) + runs[k].BitsFrom(0))
  }

  function PixelsOf(runs: seq<Run>): seq<byte> {
    if runs == [] then [] else PixelsOf(runs[..|runs| - 1]) + Joined(runs[|runs| - 1].words)
  }

  /** Some run has more words than the program takes without another clear code. */
  predicate SomeTooLong(cs: nat, runs: seq<Run>) { exists k :: 0 <= k < |runs| && |runs[k].words| > MAX_CODES - 1 - Pow2(cs) }

  function Joined(words: seq<seq<byte>>): seq<byte> { if words == [] then [] else Joined(words[..|words| - 1]) + words[|words| - 1] }

  // ---- Decoding ----

  /** The reference's table after `i` words. */
  ghost predicate After(s: Strings, z: Run, i: nat)
    requires z.Valid() && i <= |z.words|
  {
    && s.previous == (if i == 0 then [] else z.words[i - 1]) && s.width == z.widths[i] && !s.first
    && |s.entries| == (if i == 0 then 0 else if i - 1 <= Room(z.cs) then i - 1 else Room(z.cs))
    && forall k :: 0 <= k < |s.entries| ==> k + 1 < |z.words| && s.entries[k] == Entry(z.words, k)
  }

  lemma {:induction false} CodeIs(s: Strings, z: Run, i: nat)
    requires z.Valid() && i < |z.words| && After(s, z, i)
    ensures var code := z.codes[i];
      && code < Pow2(z.widths[i]) && code != Pow2(z.cs) && code != Pow2(z.cs) + 1 && code <= Avail(z.cs, s)
      && (i == 0 ==> code < Avail(z.cs, s)) && StringFor(z.cs, s, code) == z.words[i]
      && code <= AvailAfter(z.cs, i) && (i == 0 ==> code < AvailAfter(z.cs, i))
  {
    Sizes(z.cs);
    var code, k := z.codes[i], z.codes[i] - Pow2(z.cs) - 2;
    assert Names(z.words, i, code, z.cs) && WideEnough(z.widths[i], z.cs, i);
    Pow2Monotone(z.cs, z.widths[i]);
    if code >= Pow2(z.cs) && i > 0 && k == |s.entries| {
      assert k == i - 1 && z.words[i][0] == z.words[i - 1][0];
    }
  }

  /** The width after one more code. */
  lemma {:induction false} WidthIs(cs: nat, w: nat, w': nat, n: nat, avail: nat)
    requires 2 <= cs <= 8 && WideEnough(w, cs, n) && WideEnough(w', cs, n + 1)
    requires avail == if AvailAfter(cs, n + 1) <= FULL then AvailAfter(cs, n + 1) else FULL
    ensures NextWidth(w, AvailAfter(cs, n + 1)) == w' && NextWidth(w, avail) == w'
  {
    Sizes(cs);
    Pow2Values();
    if w < w' - 1 { Pow2Monotone(w, w' - 2); }
    if w' < w { Pow2Monotone(w', w - 1); }
    if w < WIDEST && w' == w + 1 { Doubles(w); }
    if w == w' < WIDEST { Pow2Monotone(w, WIDEST); }
    if w < WIDEST { Pow2Monotone(w, 11); }
  }

  lemma {:induction false} Doubles(n: nat)
    ensures Pow2(n + 1) == 2 * Pow2(n)
  {
  }

  lemma {:induction false} NextAfter(s: Strings, z: Run, i: nat)
    requires z.Valid() && i < |z.words| && After(s, z, i)
    ensures After(Extended(z.cs, s, z.codes[i]), z, i + 1)
  {
    hide StringFor, NextWidth, Names, Pow2, WideEnough;
    Sizes(z.cs);
    CodeIs(s, z, i);
    assert WideEnough(z.widths[i], z.cs, i) && WideEnough(z.widths[i + 1], z.cs, i + 1);
    WidthIs(z.cs, z.widths[i], z.widths[i + 1], i, Avail(z.cs, Extended(z.cs, s, z.codes[i])));
  }

  /** A code comes next in the data. */
  lemma {:induction false} CodeHere(data: seq<bool>, at: nat, code: nat, width: nat, rest: seq<bool>)
    requires at <= |data| && code < Pow2(width) && BitsOf(code, width) + rest <= data[at..]
    ensures at + width <= |data| && Value(data[at..at + width]) == code && rest <= data[at + width..]
  {
    var bits := BitsOf(code, width);
    assert data[at..][..width] == bits && data[at..][..width] == data[at..at + width];
    assert data[at..][width..] == data[at + width..];
    assert (bits + rest)[width..] == rest && (bits + rest)[..width] == bits;
    ValueOfBits(code, width);
  }

  lemma {:induction false} StopFits(z: Run)
    requires z.Valid()
    ensures Pow2(z.cs) + 1 < Pow2(z.widths[|z.words|]) && z.widths[|z.words|] > 0 && Pow2(z.cs) < Pow2(z.cs + 1)
  {
    Sizes(z.cs);
    assert WideEnough(z.widths[|z.words|], z.cs, |z.words|);
    Pow2Monotone(z.cs + 1, z.widths[|z.words|]);
  }

  /** One word. */
  lemma {:induction false} WordDecodes(data: seq<bool>, at: nat, s: Strings, z: Run, i: nat, out: seq<byte>)
    requires z.Valid() && i < |z.words| && After(s, z, i) && at <= |data| && z.BitsFrom(i) <= data[at..]
    ensures s.width > 0 && at + s.width <= |data| && z.BitsFrom(i + 1) <= data[at + s.width..]
    ensures |z.BitsFrom(i)| == s.width + |z.BitsFrom(i + 1)|
    ensures var s' := Extended(z.cs, s, z.codes[i]);
      && After(s', z, i + 1) && s'.width > 0
      && AppendixF(data, at, z.cs, s, out) == AppendixF(data, at + s.width, z.cs, s', out + z.words[i])
      && (TooLong(data, at, z.cs, s.width, i, false) <==>
            i >= MAX_CODES - 1 - Pow2(z.cs) || TooLong(data, at + s.width, z.cs, s'.width, i + 1, false))
  {
    hide Value, StringFor, Extended, After, NextWidth, AvailAfter, BitsOf, Pow2, Names, WideEnough, Avail;
    WidthHere(s, z, i);
    CodeIs(s, z, i);
    CodeHere(data, at, z.codes[i], s.width, z.BitsFrom(i + 1));
    NextAfter(s, z, i);
    WidthHere(Extended(z.cs, s, z.codes[i]), z, i + 1);
    CodeLength(z.codes[i], s.width);
  }

  /** The words of a run, from any place on. */
  lemma {:induction false} WordsDecode(data: seq<bool>, at: nat, s: Strings, z: Run, i: nat, out: seq<byte>)
    returns (at': nat, s': Strings)
    requires z.Valid() && i <= |z.words| && After(s, z, i) && at <= |data| && z.BitsFrom(i) <= data[at..]
    ensures s.width > 0 && s'.width > 0 && at' == at + |z.BitsFrom(i)| <= |data| && After(s', z, |z.words|)
    ensures AppendixF(data, at, z.cs, s, out + Joined(z.words[..i])) == AppendixF(data, at', z.cs, s', out + Joined(z.words))
    ensures TooLong(data, at, z.cs, s.width, i, false) <==>
      (|z.words| > MAX_CODES - 1 - Pow2(z.cs) && i < |z.words|) || TooLong(data, at', z.cs, s'.width, |z.words|, false)
    decreases |z.words| - i
  {
    hide Value, StringFor, Extended, After, NextWidth, AvailAfter, BitsOf, Pow2, Names, WideEnough, Avail, AppendixF, TooLong, Run.Valid;
    HasWidths(z);
    WidthHere(s, z, i);
    if i == |z.words| {
      assert z.words[..i] == z.words;
      at', s' := at, s;
    } else {
      WordDecodes(data, at, s, z, i, out + Joined(z.words[..i]));
      assert z.words[..i + 1][..i] == z.words[..i];
      Appended(out, Joined(z.words[..i]), z.words[i]);
      at', s' := WordsDecode(data, at + s.width, Extended(z.cs, s, z.codes[i]), z, i + 1, out);
    }
  }

  lemma {:induction false} Appended(a: seq<byte>, b: seq<byte>, c: seq<byte>)
    ensures (a + b) + c == a + (b + c)
  {
  }

  lemma {:induction false} WidthHere(s: Strings, z: Run, i: nat)
    requires z.Valid() && i <= |z.words| && After(s, z, i)
    ensures s.width == z.widths[i] > 0 && !s.first && (s.previous == [] <==> i == 0)
    ensures i < |z.words| ==> NextWidth(z.widths[i], AvailAfter(z.cs, i + 1)) == z.widths[i + 1]
  {
    assert WideEnough(z.widths[i], z.cs, i);
    if i < |z.words| {
      assert WideEnough(z.widths[i + 1], z.cs, i + 1);
      hide NextWidth, WideEnough;
      WidthIs(z.cs, z.widths[i], z.widths[i + 1], i, if AvailAfter(z.cs, i + 1) <= FULL then AvailAfter(z.cs, i + 1) else FULL);
    }
  }

  lemma {:induction false} FreshAfter(z: Run)
    requires z.Valid()
    ensures After(Fresh(z.cs), z, 0)
  {
    Sizes(z.cs);
    assert WideEnough(z.widths[0], z.cs, 0);
    if z.widths[0] > z.cs + 1 { Pow2Monotone(z.cs + 1, z.widths[0] - 1); }
  }

  /** Where the decoder has come to after some runs. */
  ghost predicate Between(s: Strings, cs: nat, runs: seq<Run>)
    requires AllValid(cs, runs)
  {
    && s.width == WidthAfter(cs, runs) && s.first == (runs == [])
    && if runs == [] then s == Begin(cs) else After(s, runs[|runs| - 1], WordsIn(runs))
  }

  lemma {:induction false} RunsDecode(data: seq<bool>, cs: nat, runs: seq<Run>) returns (at: nat, s: Strings)
    requires AllValid(cs, runs) && BitsOfRuns(cs, runs) <= data
    ensures at == |BitsOfRuns(cs, runs)| <= |data| && Between(s, cs, runs) && s.width > 0
    ensures AppendixF(data, 0, cs, Begin(cs), []) == AppendixF(data, at, cs, s, PixelsOf(runs))
    ensures TooLong(data, 0, cs, cs + 1, 0, true) <==>
      SomeTooLong(cs, runs) || TooLong(data, at, cs, s.width, WordsIn(runs), runs == [])
  {
    hide Value, Extended, After, NextWidth, AvailAfter, BitsOf, Pow2, Names, WideEnough, Avail, Run.BitsFrom, Run.Valid, AppendixF, TooLong;
    if runs == [] {
      at, s := 0, Begin(cs);
    } else {
      var k := |runs| - 1;
      var z, init, head := runs[k], runs[..k], BitsOfRuns(cs, runs[..k]);
      HasWidths(z);
      var tail := z.BitsFrom(0);
      var code := BitsOf(Pow2(cs), WidthAfter(cs, init)) + tail;
      Prefixes(data, head, code);
      var at0, s0 := RunsDecode(data, cs, init);
      ClearDecodes(data, at0, cs, s0, init, tail);
      FreshAfter(z);
      NoneSent(z);
      assert PixelsOf(init) + [] == PixelsOf(init);
      at, s := WordsDecode(data, at0 + s0.width, Fresh(cs), z, 0, PixelsOf(init));
      FewWords(cs);
      CodeLength(Pow2(cs), s0.width);
      LastWidth(s, z, cs, runs);
      SomeLast(cs, runs);
    }
  }

  lemma {:induction false} Prefixes(data: seq<bool>, a: seq<bool>, b: seq<bool>)
    requires a + b <= data
    ensures a <= data && b <= data[|a|..]
  {
    assert (a + b)[..|a|] == a && (a + b)[|a|..] == b;
  }

  lemma {:induction false} HasWidths(z: Run)
    requires z.Valid()
    ensures |z.codes| == |z.words| && |z.widths| == |z.words| + 1
  {
  }

  lemma {:induction false} NoneSent(z: Run)
    ensures Joined(z.words[..0]) == []
  {
  }

  lemma {:induction false} CodeLength(code: nat, width: nat)
    ensures |BitsOf(code, width)| == width
  {
  }

  lemma {:induction false} LastWidth(s: Strings, z: Run, cs: nat, runs: seq<Run>)
    requires AllValid(cs, runs) && runs != [] && z == runs[|runs| - 1] && After(s, z, |z.words|)
    ensures s.width == WidthAfter(cs, runs) && !s.first
  {
  }

  lemma {:induction false} SomeLast(cs: nat, runs: seq<Run>)
    requires runs != []
    ensures SomeTooLong(cs, runs) <==> SomeTooLong(cs, runs[..|runs| - 1]) || WordsIn(runs) > MAX_CODES - 1 - Pow2(cs)
  {
    var k := |runs| - 1;
    if WordsIn(runs) > MAX_CODES - 1 - Pow2(cs) { assert |runs[k].words| > MAX_CODES - 1 - Pow2(cs); }
    if j :| 0 <= j < k && |runs[..k][j].words| > MAX_CODES - 1 - Pow2(cs) { assert runs[..k][j] == runs[j]; }
  }

  /** The special codes fit the width, at any time. */
  lemma {:induction false} SpecialsFit(s: Strings, cs: nat, runs: seq<Run>)
    requires AllValid(cs, runs) && Between(s, cs, runs)
    ensures Pow2(cs) < Pow2(cs) + 1 < Pow2(s.width)
  {
    Sizes(cs);
    if runs != [] {
      var z := runs[|runs| - 1];
      assert WideEnough(z.widths[|z.words|], cs, |z.words|);
      Pow2Monotone(cs + 1, s.width);
    }
  }

  lemma {:induction false} ClearDecodes(data: seq<bool>, at: nat, cs: nat, s: Strings, runs: seq<Run>, tail: seq<bool>)
    requires AllValid(cs, runs) && Between(s, cs, runs) && s.width > 0 && at <= |data|
    requires BitsOf(Pow2(cs), s.width) + tail <= data[at..]
    ensures at + s.width <= |data| && tail <= data[at + s.width..]
    ensures AppendixF(data, at, cs, s, PixelsOf(runs)) == AppendixF(data, at + s.width, cs, Fresh(cs), PixelsOf(runs))
    ensures TooLong(data, at, cs, s.width, WordsIn(runs), runs == []) == TooLong(data, at + s.width, cs, cs + 1, 0, false)
  {
    hide Value, StringFor, Extended, After, NextWidth, AvailAfter, BitsOf, Pow2, Avail;
    SpecialsFit(s, cs, runs);
    CodeHere(data, at, Pow2(cs), s.width, tail);
  }

  /** Appendix F reads back whatever was cut into words, and so does the program unless some run has more words
      than the 8191 - 2^cs that it takes without another clear code. */
  lemma {:induction false} RunsReadBack(data: seq<bool>, cs: nat, runs: seq<Run>)
    requires AllValid(cs, runs) && BitsOfRuns(cs, runs) + BitsOf(Pow2(cs) + 1, WidthAfter(cs, runs)) <= data
    ensures AppendixF(data, 0, cs, Begin(cs), []) == Pixels(PixelsOf(runs))
    ensures Decode(data, 0, cs, Begin(cs), []) == if SomeTooLong(cs, runs) then TooManyCodes else Pixels(PixelsOf(runs))
  {
    hide Value, StringFor, Extended, After, NextWidth, AvailAfter, BitsOf, Pow2, Decode, Avail, BitsOfRuns, WidthAfter, AllValid;
    var all, last := BitsOfRuns(cs, runs), BitsOf(Pow2(cs) + 1, WidthAfter(cs, runs));
    Prefixes(data, all, last);
    var at, s := RunsDecode(data, cs, runs);
    SpecialsFit(s, cs, runs);
    assert last + [] == last;
    CodeHere(data, at, Pow2(cs) + 1, s.width, []);
    CodeSizeIs(cs, runs);
    AgreesIff(data, cs);
  }

  lemma {:induction false} CodeSizeIs(cs: nat, runs: seq<Run>)
    requires AllValid(cs, runs)
    ensures 2 <= cs <= 8
  {
  }

  /** A code that stands for nothing yet is an error: one past the next free code, the next free code itself where
      no string comes before it, and any pixel's where no clear code does. */
  lemma {:induction false} NamelessIsRefused(data: seq<bool>, cs: nat, runs: seq<Run>, code: nat)
    requires AllValid(cs, runs) && BitsOfRuns(cs, runs) + BitsOf(code, WidthAfter(cs, runs)) <= data && code < Pow2(WidthAfter(cs, runs))
    requires code > AvailAfter(cs, WordsIn(runs)) || (WordsIn(runs) == 0 && code == AvailAfter(cs, 0)) || (runs == [] && code < Pow2(cs))
    ensures var error := if runs == [] && code <= AvailAfter(cs, 0) then NoClearCode else IllegalCode;
      && AppendixF(data, 0, cs, Begin(cs), []) == error
      && Decode(data, 0, cs, Begin(cs), []) == if SomeTooLong(cs, runs) then TooManyCodes else error
  {
    hide Value, StringFor, Extended, After, NextWidth, AvailAfter, BitsOf, Pow2, Decode, Avail, BitsOfRuns, WidthAfter, AllValid;
    var all, last := BitsOfRuns(cs, runs), BitsOf(code, WidthAfter(cs, runs));
    Prefixes(data, all, last);
    var at, s := RunsDecode(data, cs, runs);
    assert last + [] == last;
    CodeHere(data, at, code, s.width, []);
    NextFree(s, cs, runs, code);
    CodeSizeIs(cs, runs);
    AgreesIff(data, cs);
  }

  lemma {:induction false} NextFree(s: Strings, cs: nat, runs: seq<Run>, code: nat)
    requires AllValid(cs, runs) && Between(s, cs, runs) && code < Pow2(s.width)
    ensures code > Avail(cs, s) <==> code > AvailAfter(cs, WordsIn(runs))
    ensures AvailAfter(cs, WordsIn(runs)) >= Pow2(cs) + 2
    ensures WordsIn(runs) == 0 ==> Avail(cs, s) == AvailAfter(cs, 0) == Pow2(cs) + 2 && s.previous == []
  {
    Sizes(cs);
    if runs != [] {
      var z := runs[|runs| - 1];
      assert WideEnough(z.widths[|z.words|], cs, |z.words|);
      Pow2Monotone(s.width, WIDEST);
    }
  }

  /** Where the data ends before another code, what has come is the picture. */
  lemma {:induction false} DataMayEnd(data: seq<bool>, cs: nat, runs: seq<Run>)
    requires AllValid(cs, runs) && BitsOfRuns(cs, runs) <= data && |data| < |BitsOfRuns(cs, runs)| + WidthAfter(cs, runs)
    ensures AppendixF(data, 0, cs, Begin(cs), []) == Pixels(PixelsOf(runs))
    ensures Decode(data, 0, cs, Begin(cs), []) == if SomeTooLong(cs, runs) then TooManyCodes else Pixels(PixelsOf(runs))
  {
    hide Value, StringFor, Extended, After, NextWidth, AvailAfter, BitsOf, Pow2, Decode, Avail, BitsOfRuns, WidthAfter, AllValid;
    var at, s := RunsDecode(data, cs, runs);
    CodeSizeIs(cs, runs);
    AgreesIff(data, cs);
  }

  lemma {:induction false} FewWords(cs: nat)
    requires 2 <= cs <= 8
    ensures MAX_CODES - 1 - Pow2(cs) > 0
  {
    Sizes(cs);
  }

  // ---- Every picture ----

  function WidthAt(cs: nat, n: nat): nat { if n == 0 then cs + 1 else NextWidth(WidthAt(cs, n - 1), AvailAfter(cs, n)) }

  lemma {:induction false} WidthAtIsEnough(cs: nat, n: nat)
    requires 2 <= cs <= 8
    ensures WideEnough(WidthAt(cs, n), cs, n)
  {
    hide NextWidth, WideEnough, Pow2;
    if n == 0 {
      FirstWidth(cs);
    } else {
      WidthAtIsEnough(cs, n - 1);
      NextIsEnough(cs, WidthAt(cs, n - 1), n - 1);
    }
  }

  lemma {:induction false} FirstWidth(cs: nat)
    requires 2 <= cs <= 8
    ensures WideEnough(cs + 1, cs, 0)
  {
    Sizes(cs);
  }

  lemma {:induction false} NextIsEnough(cs: nat, width: nat, n: nat)
    requires 2 <= cs <= 8 && WideEnough(width, cs, n)
    ensures WideEnough(NextWidth(width, AvailAfter(cs, n + 1)), cs, n + 1)
  {
    hide Pow2;
    Doubles(width);
    Pow2Monotone(0, width);
    assert Pow2(0) == 1 by { OneIs(); }
    Sizes(cs);
  }

  lemma {:induction false} OneIs()
    ensures Pow2(0) == 1
  {
  }

  /** Each pixel on its own: the simplest of the encodings. */
  function Singly(cs: nat, pixels: seq<byte>): Run {
    Run(cs, seq(|pixels|, i requires 0 <= i < |pixels| => [pixels[i]]),
      seq(|pixels|, i requires 0 <= i < |pixels| => pixels[i] as nat), seq(|pixels| + 1, i requires i >= 0 => WidthAt(cs, i)))
  }

  lemma {:induction false} JoinedSingly(pixels: seq<byte>, cs: nat)
    ensures Joined(Singly(cs, pixels).words) == pixels
  {
    if pixels != [] {
      var last := |pixels| - 1;
      JoinedSingly(pixels[..last], cs);
      assert Singly(cs, pixels).words[..last] == Singly(cs, pixels[..last]).words;
      assert pixels[..last] + [pixels[last]] == pixels;
    }
  }

  /** So every picture can be sent. */
  lemma {:induction false} EveryPictureCanBeSent(cs: nat, pixels: seq<byte>)
    requires 2 <= cs <= 8 && forall i :: 0 <= i < |pixels| ==> pixels[i] as nat < Pow2(cs)
    ensures var z := Singly(cs, pixels); AllValid(cs, [z]) && PixelsOf([z]) == pixels
  {
    hide WideEnough, WidthAt, Pow2;
    var z := Singly(cs, pixels);
    forall i | 0 <= i < |z.widths| ensures WideEnough(z.widths[i], cs, i) {
      WidthAtIsEnough(cs, i);
    }
    JoinedSingly(pixels, cs);
    assert [z][..0] == [] && PixelsOf([]) == [];
  }

  // ---- Sub-blocks ----

  /** Section 15 of the GIF89a specification: blocks of up to 255 bytes, each after its length, and an empty one. */
  function Framed(blocks: seq<seq<byte>>): seq<byte>
    requires forall b <- blocks :: 0 < |b| < 256
  {
    if blocks == [] then [0] else [|blocks[0]|] + (blocks[0] + Framed(blocks[1..]))
  }

  function BytesOf(blocks: seq<seq<byte>>): seq<byte> { if blocks == [] then [] else blocks[0] + BytesOf(blocks[1..]) }

  lemma {:induction false} NextBlock(input: seq<byte>, pos: nat, b: seq<byte>, rest: seq<byte>)
    requires |b| < 256 && pos <= |input| && [|b|] + (b + rest) <= input[pos..]
    ensures pos + 1 + |b| <= |input| && input[pos] == |b| && Padded(input, pos + 1, |b|) == b && rest <= input[pos + 1 + |b|..]
  {
    var all := [|b|] + (b + rest);
    assert all[0] == input[pos..][0];
    forall i | 0 <= i < |b| ensures Padded(input, pos + 1, |b|)[i] == b[i] { assert all[1 + i] == input[pos..][1 + i]; }
    forall i | 0 <= i < |rest| ensures rest[i] == input[pos + 1 + |b| + i] { assert all[1 + |b| + i] == input[pos..][1 + |b| + i]; }
  }

  lemma {:induction false} BlocksReadBack(input: seq<byte>, pos: nat, blocks: seq<seq<byte>>)
    requires (forall b <- blocks :: 0 < |b| < 256) && pos <= |input| && Framed(blocks) <= input[pos..]
    ensures Payload(input, pos) == BytesOf(blocks)
    decreases |blocks|
  {
    hide Padded;
    if blocks == [] {
      assert Framed(blocks)[0] == input[pos..][0];
    } else {
      NextBlock(input, pos, blocks[0], Framed(blocks[1..]));
      BlocksReadBack(input, pos + 1 + |blocks[0]|, blocks[1..]);
    }
  }

  /** A picture's runs, the end code and anything to fill the last byte, cut into sub-blocks in any way. */
  lemma {:induction false} PictureReadsBack(input: seq<byte>, pos: nat, blocks: seq<seq<byte>>, cs: nat, runs: seq<Run>)
    requires (forall b <- blocks :: 0 < |b| < 256) && pos <= |input| && Framed(blocks) <= input[pos..]
    requires AllValid(cs, runs) && BitsOfRuns(cs, runs) + BitsOf(Pow2(cs) + 1, WidthAfter(cs, runs)) <= BitsOfBytes(BytesOf(blocks))
    ensures Decode(BitsOfBytes(Payload(input, pos)), 0, cs, Begin(cs), [])
         == if SomeTooLong(cs, runs) then TooManyCodes else Pixels(PixelsOf(runs))
  {
    hide Decode, AllValid, SomeTooLong, BitsOfRuns, WidthAfter, Framed, Payload, BytesOf, BitsOfBytes, BitsOf, Pow2, PixelsOf;
    BlocksReadBack(input, pos, blocks);
    RunsReadBack(BitsOfBytes(BytesOf(blocks)), cs, runs);
  }
}
