/** What makes a code table of the writer's the canonical code that it announces in the file. */
module JpegStandard {
  import opened Bits
  import opened Canonical
  import opened JpegBlock
  import opened JpegTables
  import opened JpegWriter

  /** One of the writer's codes.  `count` says how many codes there are of each length.  `rows` are the
      symbols in order of code, all of a row's codes having one length, and `codes` is the first code of
      each row and its length.  `runs` is the writer's table, sixteen symbols at a time.  The rest counts
      up: symbols before each row, symbols with shorter codes, and the first code of each length. */
  datatype Standard = Standard(
    count: seq<nat>,
    rows: seq<seq<byte>>,
    codes: seq<(nat, nat)>,
    runs: seq<seq<(nat, nat)>>,
    offsets: seq<nat>,
    starts: seq<nat>,
    firsts: seq<nat>)

  function Values(rows: seq<seq<byte>>): seq<byte> {
    if rows == [] then [] else Values(rows[..|rows| - 1]) + rows[|rows| - 1]
  }

  /** The symbols, in a table of 256. */
  function Padded(values: seq<byte>): (r: seq<byte>)
    ensures |values| <= 256 ==> |r| == 256 && values <= r
  {
    values + seq<byte>(if |values| <= 256 then 256 - |values| else 0, _ => 0)
  }

  function Entry(runs: seq<seq<(nat, nat)>>, v: nat): (nat, nat) {
    if v / 16 < |runs| && v % 16 < |runs[v / 16]| then runs[v / 16][v % 16] else (0, 0)
  }

  function TableOf(runs: seq<seq<(nat, nat)>>): CodeTable { seq(256, v requires 0 <= v < 256 => Entry(runs, v)) }

  predicate StartsUp(count: seq<nat>, starts: seq<nat>) {
    |count| == 16 && |starts| == 17 && starts[0] == 0 && forall s :: 0 <= s < 16 ==> starts[s + 1] == starts[s] + count[s]
  }

  predicate FirstsUp(count: seq<nat>, firsts: seq<nat>) {
    |count| == 16 && |firsts| == 17 && firsts[0] == 0 && forall s :: 0 <= s < 16 ==> firsts[s + 1] == 2 * (firsts[s] + count[s])
  }

  predicate FitsBits(count: seq<nat>, firsts: seq<nat>) {
    |count| == 16 && |firsts| == 17 && forall s :: 0 <= s < 16 ==> firsts[s] + count[s] <= Pow2(s + 1)
  }

  predicate OffsetsUp(rows: seq<seq<byte>>, offsets: seq<nat>) {
    |offsets| == |rows| + 1 && offsets[0] == 0 && forall k :: 0 <= k < |rows| ==> offsets[k + 1] == offsets[k] + |rows[k]|
  }

  /** Each row begins, and ends, among the codes of its length. */
  predicate Begins(codes: seq<(nat, nat)>, offsets: seq<nat>, starts: seq<nat>) {
    && |starts| == 17 && |offsets| == |codes| + 1 && offsets[|codes|] == starts[16] <= 255
    && forall k :: 0 <= k < |codes| ==> 1 <= codes[k].1 <= 16 && starts[codes[k].1 - 1] <= offsets[k]
  }

  predicate Ends(codes: seq<(nat, nat)>, offsets: seq<nat>, starts: seq<nat>) {
    && |starts| == 17 && |offsets| == |codes| + 1
    && forall k :: 0 <= k < |codes| && 0 <= codes[k].1 <= 16 ==> offsets[k + 1] <= starts[codes[k].1]
  }

  /** Each row starts as far from its length's first code as from its first symbol. */
  predicate InStep(codes: seq<(nat, nat)>, offsets: seq<nat>, starts: seq<nat>, firsts: seq<nat>) {
    && |starts| == |firsts| == 17 && |offsets| > |codes|
    && forall k :: 0 <= k < |codes| && 1 <= codes[k].1 <= 16 ==>
      codes[k].0 + starts[codes[k].1 - 1] == firsts[codes[k].1 - 1] + offsets[k]
  }

  /** The writer's table has consecutive codes for a row's symbols. */
  predicate RowRight(runs: seq<seq<(nat, nat)>>, row: seq<byte>, code: nat, length: nat) {
    forall j :: 0 <= j < |row| ==> Entry(runs, row[j]) == (code + j, length)
  }

  lemma {:induction false} RowIsRight(runs: seq<seq<(nat, nat)>>, row: seq<byte>, n: nat, code: nat, length: nat)
    requires |row| == n && forall j :: 0 <= j < n ==> Entry(runs, row[j]) == (code + j, length)
    ensures RowRight(runs, row, code, length)
  {
  }

  predicate RowsRight(c: Standard) {
    |c.rows| == |c.codes| && forall k :: 0 <= k < |c.rows| ==> RowRight(c.runs, c.rows[k], c.codes[k].0, c.codes[k].1)
  }

  predicate Counted(c: Standard) {
    && StartsUp(c.count, c.starts) && FirstsUp(c.count, c.firsts)
    && OffsetsUp(c.rows, c.offsets) && Begins(c.codes, c.offsets, c.starts)
    && Ends(c.codes, c.offsets, c.starts) && InStep(c.codes, c.offsets, c.starts, c.firsts)
  }

  predicate Right(c: Standard) { Counted(c) && FitsBits(c.count, c.firsts) && RowsRight(c) }

  // ---- What the counts say of the code lengths ----

  lemma {:induction false} CountRun(lens: seq<nat>, n: nat, m: nat, s: nat)
    ensures Count(lens + seq(m, _ => n), s) == Count(lens, s) + if s == n then m else 0
  {
    var run := seq(m, _ => n);
    if m == 0 {
      assert lens + run == lens;
    } else {
      var less := seq(m - 1, _ => n);
      assert (lens + run)[..|lens + run| - 1] == lens + less;
      CountRun(lens, n, m - 1, s);
    }
  }

  lemma {:induction false} CountIs(count: seq<nat>, s: nat)
    requires s > 0
    ensures Count(SizeList(count), s) == if s <= |count| then count[s - 1] else 0
  {
    if count != [] {
      var n := |count|;
      CountIs(count[..n - 1], s);
      CountRun(SizeList(count[..n - 1]), n, count[n - 1], s);
    }
  }

  lemma {:induction false} FirstsAre(c: Standard, s: nat)
    requires FirstsUp(c.count, c.firsts) && 1 <= s <= 17
    ensures First(SizeList(c.count), s) == c.firsts[s - 1]
  {
    if s > 1 {
      FirstsAre(c, s - 1);
      CountIs(c.count, s - 1);
      assert c.firsts[s - 2 + 1] == 2 * (c.firsts[s - 2] + c.count[s - 2]);
    }
  }

  lemma {:induction false} StartsAre(c: Standard, s: nat)
    requires StartsUp(c.count, c.starts) && 1 <= s <= 17
    ensures Shorter(SizeList(c.count), s) == c.starts[s - 1]
  {
    if s > 1 {
      StartsAre(c, s - 1);
      ShorterStep(SizeList(c.count), s - 1);
      CountIs(c.count, s - 1);
      assert c.starts[s - 2 + 1] == c.starts[s - 2] + c.count[s - 2];
    } else {
      SizeListSorted(c.count);
      ShorterThanOne(SizeList(c.count));
    }
  }

  lemma {:induction false} LengthIs(c: Standard)
    requires StartsUp(c.count, c.starts)
    ensures |SizeList(c.count)| == c.starts[16]
  {
    StartsAre(c, 17);
    AllShorter(SizeList(c.count), 17);
  }

  /** The lengths announced are accepted by the reader. */
  lemma {:induction false} StandardAccepted(c: Standard)
    requires FirstsUp(c.count, c.firsts) && FitsBits(c.count, c.firsts)
    ensures Accepted(SizeList(c.count))
  {
    var lens := SizeList(c.count);
    forall s | 1 <= s <= LONGEST ensures End(lens, s) <= Pow2(s) {
      FirstsAre(c, s);
      CountIs(c.count, s);
      assert c.firsts[s - 1] + c.count[s - 1] <= Pow2(s - 1 + 1);
    }
  }

  // ---- Where each symbol stands ----

  lemma {:induction false} RowAt(c: Standard, k: nat, n: nat)
    requires OffsetsUp(c.rows, c.offsets) && k < n <= |c.rows|
    ensures |Values(c.rows[..n])| == c.offsets[n] && c.offsets[k] <= c.offsets[k + 1] <= c.offsets[n]
    ensures Values(c.rows[..n])[c.offsets[k]..c.offsets[k + 1]] == c.rows[k]
    decreases n
  {
    hide Values;
    var before := Values(c.rows[..n - 1]);
    LastRow(c.rows, n);
    RowLength(c, n - 1);
    LengthAt(c, n - 1);
    if k < n - 1 {
      RowAt(c, k, n - 1);
      assert (before + c.rows[n - 1])[c.offsets[k]..c.offsets[k + 1]] == before[c.offsets[k]..c.offsets[k + 1]];
    }
  }

  lemma {:induction false} LastRow(rows: seq<seq<byte>>, n: nat)
    requires 0 < n <= |rows|
    ensures Values(rows[..n]) == Values(rows[..n - 1]) + rows[n - 1]
  {
    assert rows[..n][..n - 1] == rows[..n - 1];
  }

  lemma {:induction false} LengthAt(c: Standard, n: nat)
    requires OffsetsUp(c.rows, c.offsets) && n <= |c.rows|
    ensures |Values(c.rows[..n])| == c.offsets[n]
  {
    if n > 0 {
      var rows := c.rows[..n];
      assert rows[..n - 1] == c.rows[..n - 1];
      LengthAt(c, n - 1);
      assert c.offsets[n - 1 + 1] == c.offsets[n - 1] + |c.rows[n - 1]|;
    }
  }

  lemma {:induction false} RowOf(c: Standard, i: nat, n: nat) returns (k: nat)
    requires |c.offsets| > n && c.offsets[0] == 0 && i < c.offsets[n]
    ensures k < n && c.offsets[k] <= i < c.offsets[k + 1]
  {
    if i < c.offsets[n - 1] {
      k := RowOf(c, i, n - 1);
    } else {
      k := n - 1;
    }
  }

  lemma {:induction false} ValueAt(c: Standard, k: nat, j: nat)
    requires OffsetsUp(c.rows, c.offsets) && k < |c.rows| && j < |c.rows[k]|
    ensures c.offsets[k] + j < c.offsets[k + 1] <= |Values(c.rows)| == c.offsets[|c.rows|]
    ensures Values(c.rows)[c.offsets[k] + j] == c.rows[k][j]
  {
    hide Values;
    var n := |c.rows|;
    assert c.rows[..n] == c.rows;
    RowAt(c, k, n);
    assert c.offsets[k + 1] == c.offsets[k] + |c.rows[k]|;
    assert Values(c.rows)[c.offsets[k]..c.offsets[k + 1]][j] == c.rows[k][j];
  }

  /** The code of the `j`-th symbol of row `k`. */
  lemma {:induction false} CodeAt(c: Standard, k: nat, j: nat)
    requires Counted(c) && k < |c.rows| && j < |c.rows[k]|
    ensures var lens, i := SizeList(c.count), c.offsets[k] + j;
      i < |lens| && lens[i] == c.codes[k].1 && Code(lens, i) == c.codes[k].0 + j
  {
    hide SizeList, Shorter, Code, First, Values, Sorted, StartsUp, FirstsUp;
    var lens, i, s := SizeList(c.count), c.offsets[k] + j, c.codes[k].1;
    assert c.offsets[k + 1] == c.offsets[k] + |c.rows[k]|;
    ValueAt(c, k, j);
    LengthIs(c);
    StartsAre(c, s);
    StartsAre(c, s + 1);
    FirstsAre(c, s);
    SizeListSorted(c.count);
    ShorterComeFirst(lens, s, i);
    ShorterComeFirst(lens, s + 1, i);
    CodeInOrder(lens, i);
  }

  lemma {:induction false} CountedParts(c: Standard)
    requires Counted(c) && RowsRight(c)
    ensures |c.offsets| == |c.rows| + 1 && c.offsets[0] == 0 && |c.starts| == 17 && c.starts[16] == c.offsets[|c.rows|]
  {
  }

  lemma {:induction false} RowLength(c: Standard, k: nat)
    requires OffsetsUp(c.rows, c.offsets) && k < |c.rows|
    ensures c.offsets[k + 1] == c.offsets[k] + |c.rows[k]|
  {
  }

  /** A symbol's entry in the writer's table is its canonical code. */
  lemma {:induction false} CodeIs(c: Standard, i: nat)
    requires Right(c) && i < |SizeList(c.count)|
    ensures |Values(c.rows)| == |SizeList(c.count)|
    ensures Entry(c.runs, Values(c.rows)[i]) == (Code(SizeList(c.count), i), SizeList(c.count)[i])
  {
    hide StartsUp, FirstsUp, FitsBits, OffsetsUp, Begins, Ends, InStep, Entry, SizeList, Code, Values;
    CountedParts(c);
    LengthIs(c);
    var k := RowOf(c, i, |c.rows|);
    RowLength(c, k);
    var j := i - c.offsets[k];
    ValueAt(c, k, j);
    CodeAt(c, k, j);
    assert RowRight(c.runs, c.rows[k], c.codes[k].0, c.codes[k].1);
  }

  /** The writer's table holds the canonical codes of the announced lengths and symbols. */
  lemma {:induction false} StandardHasCodes(c: Standard)
    requires Right(c)
    ensures |SizeList(c.count)| <= 255
    ensures HasCodes(TableOf(c.runs), SizeList(c.count), Padded(Values(c.rows)))
  {
    hide Right, Code, Entry;
    RightParts(c);
    var lens, values := SizeList(c.count), Values(c.rows);
    LengthIs(c);
    forall i | 0 <= i < |lens| ensures TableOf(c.runs)[Padded(values)[i]] == (Code(lens, i), lens[i]) && |values| == |lens| {
      CodeIs(c, i);
      assert Padded(values)[i] == values[i];
    }
    NoSymbols(c);
  }

  lemma {:induction false} RightParts(c: Standard)
    requires Right(c)
    ensures StartsUp(c.count, c.starts) && c.starts[16] <= 255
  {
  }

  lemma {:induction false} NoSymbols(c: Standard)
    requires Right(c)
    ensures |Values(c.rows)| == |SizeList(c.count)| <= 255
  {
    LengthIs(c);
    LengthAt(c, |c.rows|);
    assert c.rows[..|c.rows|] == c.rows;
  }

  // ---- Every symbol a block may use has a code ----

  lemma {:induction false} Distinct(c: Standard, i: nat, i': nat)
    requires Right(c) && i < i' < |SizeList(c.count)|
    ensures |Values(c.rows)| == |SizeList(c.count)| && Values(c.rows)[i] != Values(c.rows)[i']
  {
    hide Right, Entry, Values, SizeList;
    CodeIs(c, i);
    CodeIs(c, i');
    if SizeList(c.count)[i] == SizeList(c.count)[i'] {
      CountPrefix(SizeList(c.count), i, i', SizeList(c.count)[i]);
    }
  }

  lemma {:induction false} ElementCount(values: seq<byte>, n: nat)
    requires n <= |values| && forall i, i' :: 0 <= i < i' < |values| ==> values[i] != values[i']
    ensures |set i | 0 <= i < n :: values[i]| == n
  {
    if n > 0 {
      ElementCount(values, n - 1);
      assert (set i | 0 <= i < n :: values[i]) == (set i | 0 <= i < n - 1 :: values[i]) + {values[n - 1]};
    }
  }

  /** As many different elements as the set has are all of it. */
  lemma {:induction false} Pigeonhole(values: seq<byte>, s: set<byte>, v: byte)
    requires forall i, i' :: 0 <= i < i' < |values| ==> values[i] != values[i']
    requires (forall i :: 0 <= i < |values| ==> values[i] in s) && |values| >= |s| && v in s
    ensures v in values
  {
    var used := set i | 0 <= i < |values| :: values[i];
    ElementCount(values, |values|);
    SameSet(used, s);
  }

  lemma {:induction false} SameSet(a: set<byte>, b: set<byte>)
    requires a <= b && |a| >= |b|
    ensures a == b
  {
    assert |b| == |a| + |b - a| by { assert b == a + (b - a); }
  }

  lemma {:induction false} AllUsed(c: Standard, s: set<byte>, v: byte)
    requires Right(c) && c.starts[16] >= |s| && v in s
    requires forall k, j :: 0 <= k < |c.rows| && 0 <= j < |c.rows[k]| ==> c.rows[k][j] in s
    ensures HasSymbol(SizeList(c.count), Padded(Values(c.rows)), v)
  {
    hide Right, Values, SizeList, RowsRight, StartsUp, FirstsUp, FitsBits, OffsetsUp, Begins, Ends, InStep;
    var values := Values(c.rows);
    RightParts(c);
    LengthIs(c);
    NoSymbols(c);
    forall i, i' | 0 <= i < i' < |values| ensures values[i] != values[i'] { Distinct(c, i, i'); }
    forall i | 0 <= i < |values| ensures values[i] in s { InRow(c, i); }
    Pigeonhole(values, s, v);
    var i :| 0 <= i < |values| && values[i] == v;
    assert Padded(values)[i] == v;
  }

  lemma {:induction false} InRow(c: Standard, i: nat)
    requires Right(c) && i < |SizeList(c.count)|
    ensures |Values(c.rows)| == |SizeList(c.count)|
    ensures exists k, j :: 0 <= k < |c.rows| && 0 <= j < |c.rows[k]| && c.rows[k][j] == Values(c.rows)[i]
  {
    hide Values, SizeList, StartsUp, FirstsUp, FitsBits, OffsetsUp, Begins, Ends, InStep, RowRight;
    NoSymbols(c);
    CountedParts(c);
    LengthIs(c);
    var k := RowOf(c, i, |c.rows|);
    RowLength(c, k);
    ValueAt(c, k, i - c.offsets[k]);
    assert c.rows[k][i - c.offsets[k]] == Values(c.rows)[i];
  }

  /** The low half of the symbol is a category that may occur. */
  predicate HasCategory(v: byte) { 1 <= v % 16 <= 10 }

  predicate IsAcSymbol(v: byte) { v == 0 || v == 0xf0 || HasCategory(v) }

  function AcSymbols(): set<byte> { set v: byte | 0 <= v < 256 && IsAcSymbol(v) }

  function Categorised(m: nat): set<byte> { set v: byte | 0 <= v < 256 && v < m && HasCategory(v) }

  function Expected(m: nat): nat { 10 * (m / 16) + if m % 16 == 0 then 0 else if m % 16 <= 11 then m % 16 - 1 else 10 }

  lemma {:induction false} ExpectedStep(v: byte)
    ensures Expected(v + 1) == Expected(v) + if HasCategory(v) then 1 else 0
  {
    var q, r := v / 16, v % 16;
    assert v == 16 * q + r;
    assert if r == 15 then (v + 1) / 16 == q + 1 && (v + 1) % 16 == 0 else (v + 1) / 16 == q && (v + 1) % 16 == r + 1;
  }

  lemma {:induction false} CategorisedCount(m: nat)
    requires m <= 256
    ensures |Categorised(m)| == Expected(m)
  {
    hide HasCategory, Expected;
    if m > 0 {
      var v: byte := m - 1;
      CategorisedCount(m - 1);
      ExpectedStep(v);
      if HasCategory(v) {
        assert Categorised(m) == Categorised(m - 1) + {v};
      } else {
        assert Categorised(m) == Categorised(m - 1);
      }
    } else {
      assert Categorised(0) == {};
      NothingExpected();
    }
  }

  lemma {:induction false} NothingExpected()
    ensures Expected(0) == 0
  {
  }

  lemma {:induction false} AcSymbolCount()
    ensures |AcSymbols()| == 162
  {
    CategorisedCount(256);
    assert AcSymbols() == Categorised(256) + {0, 0xf0};
  }

  function DcSymbols(): (s: set<byte>)
    ensures |s| == 12 && forall v :: 0 <= v <= 11 ==> v in s
  {
    {0, 1, 2, 3, 4, 5, 6, 7, 8, 9, 10, 11}
  }

  /** The code is right, and its symbols are exactly those of `s`. */
  predicate Covers(c: Standard, s: set<byte>) {
    && Right(c) && c.starts[16] == |s|
    && forall k, j :: 0 <= k < |c.rows| && 0 <= j < |c.rows[k]| ==> c.rows[k][j] in s
  }

  /** How a reader codes blocks written with two of the codes. */
  function CodingOf(dc: Standard, ac: Standard, dequant: seq<nat>): Coding {
    Coding(SizeList(dc.count), Padded(Values(dc.rows)), SizeList(ac.count), Padded(Values(ac.rows)), dequant)
  }

  /** Two such codes have a code for everything in a block. */
  lemma {:induction false} StandardCoding(dc: Standard, ac: Standard, dequant: seq<nat>)
    requires Covers(dc, DcSymbols()) && Covers(ac, AcSymbols()) && |dequant| == 64
    ensures var c := CodingOf(dc, ac, dequant); Complete(c) && c.Valid()
    ensures HasCodes(TableOf(dc.runs), SizeList(dc.count), Padded(Values(dc.rows)))
    ensures HasCodes(TableOf(ac.runs), SizeList(ac.count), Padded(Values(ac.rows)))
    ensures |SizeList(dc.count)| <= 255 && |SizeList(ac.count)| <= 255
    ensures |Values(dc.rows)| <= 256 && |Values(ac.rows)| <= 256
  {
    hide Right, Values, SizeList, HasCodes, TableOf, Accepted;
    StandardHasCodes(dc);
    StandardHasCodes(ac);
    RightAccepted(dc);
    RightAccepted(ac);
    forall t | 0 <= t <= 11 ensures HasSymbol(SizeList(dc.count), Padded(Values(dc.rows)), t) { Coverage(dc, DcSymbols(), t); }
    Coverage(ac, AcSymbols(), 0);
    Coverage(ac, AcSymbols(), 0xf0);
    forall run, t | 0 <= run <= 15 && 1 <= t <= 10 ensures HasSymbol(SizeList(ac.count), Padded(Values(ac.rows)), AcSymbol(run, t)) {
      Coverage(ac, AcSymbols(), AcSymbol(run, t));
    }
    NoSymbols(dc);
    NoSymbols(ac);
  }

  lemma {:induction false} RightAccepted(c: Standard)
    requires Right(c)
    ensures Accepted(SizeList(c.count))
  {
    StandardAccepted(c);
  }

  lemma {:induction false} Coverage(c: Standard, s: set<byte>, v: byte)
    requires Covers(c, s) && v in s
    ensures HasSymbol(SizeList(c.count), Padded(Values(c.rows)), v)
  {
    hide Values, SizeList, HasSymbol;
    AllUsed(c, s, v);
  }

  /** Any block of coefficients in range is read back, multiplied, after writing with two such codes and reading
      with the tables built from what they announce. */
  method RoundTripWith(du: seq<int>, dc: int, d: Standard, a: Standard, dequant: seq<nat>)
    returns (ok: bool, data: array<int>, pred: int)
    requires Covers(d, DcSymbols()) && Covers(a, AcSymbols()) && |dequant| == 64
    requires Small(du) && Magnitude(du[0] - dc) <= 2047 && -32768 <= du[0] <= 32767
    ensures ok <==> IsShort(du[0] * dequant[0])
    ensures ok ==> Scaled(data[..], du, dequant) && pred == du[0]
  {
    hide Complete, HasCodes, TableOf, Accepted, SizeList, Values, Covers, Tables.For, Small, Scaled, Magnitude;
    StandardCoding(d, a, dequant);
    SixteenCounts(d, DcSymbols());
    SixteenCounts(a, AcSymbols());
    var built, t := BuildTables(d.count, Padded(Values(d.rows)), a.count, Padded(Values(a.rows)), dequant);
    ok, data, pred := BlockRoundTrip(du, dc, TableOf(d.runs), TableOf(a.runs), t, CodingOf(d, a, dequant));
  }

  lemma {:induction false} SixteenCounts(c: Standard, s: set<byte>)
    requires Covers(c, s)
    ensures |c.count| == 16
  {
  }
}
