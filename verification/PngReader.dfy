/** Undoing the filters with two row buffers that change places. */
module PngReader {
  import opened Arithmetic
  import opened Bits
  import opened Options
  import opened PngFilter
  import ZCompress

  const F_NONE: nat := 0
  const F_SUB: nat := 1
  const F_UP: nat := 2
  const F_AVG: nat := 3
  const F_PAETH: nat := 4
  /** Used for the first row, so that nothing is read from a row above it. */
  const F_AVG_FIRST: nat := 5
  const FIRST_ROW_FILTER: seq<nat> := [F_NONE, F_SUB, F_NONE, F_AVG_FIRST, F_SUB]

  /** The rows of an image from its filtered form: none if the data is short or names an unknown filter. */
  function Rows(raw: seq<byte>, nk: nat, n: nat, y: nat, prior: seq<byte>): (r: Option<seq<seq<byte>>>)
    requires n > 0
    ensures r.Some? ==> |r.value| == y && forall j :: 0 <= j < y ==> |r.value[j]| == nk
    decreases y
  {
    if y == 0 then Some([])
    else if |raw| < 1 + nk || raw[0] > 4 then None
    else
      var row := Unfilter(raw[0], raw[1..1 + nk], prior, n);
      match Rows(raw[1 + nk..], nk, n, y - 1, row)
      case None => None
      case Some(rest) => Some([row] + rest)
  }

  /** Reading filtered rows gives the rows back, whatever filters were chosen. */
  lemma {:induction false} RowsRoundTrip(img: Image, types: seq<nat>, y: nat, tail: seq<byte>)
    requires img.Valid() && FilterTypes(types) && |types| == img.height && y <= img.height
    ensures Rows(FilteredFrom(img, types, y) + tail, img.width * img.n, img.n, img.height - y, Previous(img, y))
         == Some(RowsFrom(img, y))
    decreases img.height - y
  {
    hide Image.Valid, Line, Unfilter;
    if y < img.height {
      var raw, nk := FilteredFrom(img, types, y) + tail, img.width * img.n;
      var line, rest := Line(img, y, types[y]), FilteredFrom(img, types, y + 1);
      assert raw == [types[y] as byte] + (line + (rest + tail));
      Pieces(types[y] as byte, line, rest + tail);
      LineRoundTrip(img, types[y], y);
      RowsRoundTrip(img, types, y + 1, tail);
    }
  }

  lemma {:induction false} Pieces(t: byte, line: seq<byte>, rest: seq<byte>)
    ensures var raw := [t] + (line + rest); raw[0] == t && raw[1..1 + |line|] == line && raw[1 + |line|..] == rest
  {
  }

  lemma {:induction false} LineRoundTrip(img: Image, t: nat, y: nat)
    requires img.Valid() && y < img.height && t <= 4
    ensures Unfilter(t, Line(img, y, t), Previous(img, y), img.n) == img.Row(y)
  {
    var nk := img.width * img.n;
    assert Line(img, y, t)[..nk] == Line(img, y, t) && img.Row(y)[..nk] == img.Row(y);
    FilterRoundTrip(t, img.Row(y), img.Above(y), img.n, nk);
  }

  function Previous(img: Image, y: nat): seq<byte>
    requires img.Valid() && y <= img.height
  {
    if y == 0 then [] else img.Row(y - 1)
  }

  function RowsFrom(img: Image, y: nat): (r: seq<seq<byte>>)
    requires img.Valid() && y <= img.height
    ensures |r| == img.height - y
    decreases img.height - y
  {
    if y == img.height then [] else [img.Row(y)] + RowsFrom(img, y + 1)
  }

  /** The filtered rows from `y` on. */
  function FilteredFrom(img: Image, types: seq<nat>, y: nat): seq<byte>
    requires img.Valid() && FilterTypes(types) && |types| == img.height && y <= img.height
    decreases img.height - y
  {
    if y == img.height then []
    else [types[y] as byte] + Line(img, y, types[y]) + FilteredFrom(img, types, y + 1)
  }

  lemma {:induction false} FilteredSplits(img: Image, types: seq<nat>, y: nat)
    requires img.Valid() && FilterTypes(types) && |types| == img.height && y <= img.height
    ensures Filtered(img, types[..y]) + FilteredFrom(img, types, y) == Filtered(img, types)
    decreases img.height - y
  {
    hide Image.Valid, Line;
    if y == img.height {
      assert types[..y] == types;
    } else {
      FilteredSplits(img, types, y + 1);
      assert types[..y + 1][..y] == types[..y];
      assert Filtered(img, types[..y]) + FilteredFrom(img, types, y)
          == Filtered(img, types[..y + 1]) + FilteredFrom(img, types, y + 1);
    }
  }

  // ---- One row, in place ----

  class FilterBuffer {
    const buf: array<byte>
    const nk: nat
    const n: nat

    constructor (rowBytes: nat, pixelBytes: nat)
      requires 0 < pixelBytes <= rowBytes
      ensures nk == rowBytes && n == pixelBytes && Halves(0, nk, []) && fresh(buf)
    {
      nk, n := rowBytes, pixelBytes;
      buf := new byte[2 * rowBytes];
    }

    ghost predicate Shape() { 0 < n <= nk && buf.Length == 2 * nk }

    /** The two halves: the row being restored and the row above it, unless there is none. */
    ghost predicate Halves(cur: nat, prior: nat, above: seq<byte>)
      reads buf
    {
      && Shape() && (cur == 0 || cur == nk) && prior == nk - cur
      && (above == [] || buf[prior..prior + nk] == above)
    }

    /** The row is right up to byte `k`. */
    ghost predicate RestoredTo(cur: nat, t: nat, raw: seq<byte>, above: seq<byte>, k: nat)
      reads buf
    {
      && Shape() && t <= 4 && k <= |raw| && cur + |raw| <= buf.Length
      && buf[cur..cur + k] == Unfilter(t, raw[..k], above, n)
    }

    lemma {:induction false} Neighbours(cur: nat, prior: nat, above: seq<byte>, k: nat)
      requires Halves(cur, prior, above) && k < nk
      ensures n > 0 && cur + nk <= buf.Length && prior + nk <= buf.Length
      ensures At(buf[cur..cur + k], k - n) == if k >= n then buf[cur + k - n] else 0
      ensures At(above, k) == if above == [] then 0 else buf[prior + k]
      ensures At(above, k - n) == if above == [] || k < n then 0 else buf[prior + k - n]
    {
    }

    lemma {:induction false} RowIsLonger(cur: nat, prior: nat, above: seq<byte>)
      requires Halves(cur, prior, above)
      ensures n <= nk
    {
    }

    method Put(cur: nat, ghost prior: nat, k: nat, v: byte, ghost t: nat, ghost raw: seq<byte>, ghost above: seq<byte>)
      requires Halves(cur, prior, above) && |raw| == nk && k < nk && t <= 4 && RestoredTo(cur, t, raw, above, k)
      requires v == Restored(t, raw[k], buf[cur..cur + k], above, k, n)
      modifies buf
      ensures Halves(cur, prior, above) && RestoredTo(cur, t, raw, above, k + 1)
    {
      ghost var done, up := buf[cur..cur + k], buf[prior..prior + nk];
      UnfilterStep(t, raw, above, n, k);
      buf[cur + k] := v;
      assert buf[cur..cur + k + 1] == done + [v] && buf[prior..prior + nk] == up;
    }

    method FilterNone(cur: nat, ghost prior: nat, raw: seq<byte>, from: nat, to: nat, ghost t: nat, ghost above: seq<byte>)
      requires Halves(cur, prior, above) && |raw| == nk && t <= 4 && from <= to <= nk && RestoredTo(cur, t, raw, above, from)
      requires t == 0 || (above == [] && t == 2) || (t == 1 && to <= n) || (above == [] && to <= n)
      modifies buf
      ensures Halves(cur, prior, above) && RestoredTo(cur, t, raw, above, to)
    {
      hide Halves, RestoredTo, At;
      for k := from to to
        invariant Halves(cur, prior, above) && RestoredTo(cur, t, raw, above, k)
      {
        Neighbours(cur, prior, above, k);
        Put(cur, prior, k, raw[k], t, raw, above);
      }
    }

    method FilterSub(cur: nat, ghost prior: nat, raw: seq<byte>, ghost t: nat, ghost above: seq<byte>)
      requires Halves(cur, prior, above) && |raw| == nk && (t == 1 || (above == [] && t == 4))
      requires RestoredTo(cur, t, raw, above, 0)
      modifies buf
      ensures Halves(cur, prior, above) && RestoredTo(cur, t, raw, above, nk)
    {
      hide Halves, RestoredTo, At;
      RowIsLonger(cur, prior, above);
      FilterNone(cur, prior, raw, 0, n, t, above);
      for k := n to nk
        invariant Halves(cur, prior, above) && RestoredTo(cur, t, raw, above, k)
      {
        Neighbours(cur, prior, above, k);
        Put(cur, prior, k, Wrap(raw[k] as int + buf[cur + k - n]), t, raw, above);
      }
    }

    method FilterUp(cur: nat, prior: nat, raw: seq<byte>, to: nat, ghost t: nat, ghost above: seq<byte>)
      requires Halves(cur, prior, above) && |raw| == nk && above != [] && to <= nk && (t == 2 || (t == 4 && to <= n))
      requires RestoredTo(cur, t, raw, above, 0)
      modifies buf
      ensures Halves(cur, prior, above) && RestoredTo(cur, t, raw, above, to)
    {
      hide Halves, RestoredTo, At;
      for k := 0 to to
        invariant Halves(cur, prior, above) && RestoredTo(cur, t, raw, above, k)
      {
        Neighbours(cur, prior, above, k);
        Put(cur, prior, k, Wrap(raw[k] as int + buf[prior + k]), t, raw, above);
      }
    }

    method FilterAverage(cur: nat, prior: nat, raw: seq<byte>, ghost above: seq<byte>)
      requires Halves(cur, prior, above) && |raw| == nk && above != [] && RestoredTo(cur, 3, raw, above, 0)
      modifies buf
      ensures Halves(cur, prior, above) && RestoredTo(cur, 3, raw, above, nk)
    {
      hide Halves, RestoredTo, At;
      RowIsLonger(cur, prior, above);
      for k := 0 to n
        invariant Halves(cur, prior, above) && RestoredTo(cur, 3, raw, above, k)
      {
        Neighbours(cur, prior, above, k);
        Put(cur, prior, k, Wrap(raw[k] as int + buf[prior + k] / 2), 3, raw, above);
      }
      for k := n to nk
        invariant Halves(cur, prior, above) && RestoredTo(cur, 3, raw, above, k)
      {
        Neighbours(cur, prior, above, k);
        Put(cur, prior, k, Wrap(raw[k] as int + Average(buf[prior + k], buf[cur + k - n])), 3, raw, above);
      }
    }

    method FilterPaeth(cur: nat, prior: nat, raw: seq<byte>, ghost above: seq<byte>)
      requires Halves(cur, prior, above) && |raw| == nk && above != [] && RestoredTo(cur, 4, raw, above, 0)
      modifies buf
      ensures Halves(cur, prior, above) && RestoredTo(cur, 4, raw, above, nk)
    {
      hide Halves, RestoredTo, At, Paeth, PaethBranchFree;
      RowIsLonger(cur, prior, above);
      FilterUp(cur, prior, raw, n, 4, above);
      for k := n to nk
        invariant Halves(cur, prior, above) && RestoredTo(cur, 4, raw, above, k)
      {
        Neighbours(cur, prior, above, k);
        PaethsAgree(buf[cur + k - n], buf[prior + k], buf[prior + k - n]);
        Put(cur, prior, k, Wrap(raw[k] as int + PaethBranchFree(buf[cur + k - n], buf[prior + k], buf[prior + k - n])),
            4, raw, above);
      }
    }

    method FilterAverageFirst(cur: nat, ghost prior: nat, raw: seq<byte>)
      requires Halves(cur, prior, []) && |raw| == nk && RestoredTo(cur, 3, raw, [], 0)
      modifies buf
      ensures Halves(cur, prior, []) && RestoredTo(cur, 3, raw, [], nk)
    {
      hide Halves, RestoredTo, At;
      RowIsLonger(cur, prior, []);
      FilterNone(cur, prior, raw, 0, n, 3, []);
      for k := n to nk
        invariant Halves(cur, prior, []) && RestoredTo(cur, 3, raw, [], k)
      {
        Neighbours(cur, prior, [], k);
        Put(cur, prior, k, Wrap(raw[k] as int + buf[cur + k - n] / 2), 3, raw, []);
      }
    }

    /** Restores one row from its filtered bytes. */
    method DefilterRow(filter: nat, cur: nat, prior: nat, raw: seq<byte>, ghost t: nat, ghost above: seq<byte>)
      requires Halves(cur, prior, above) && |raw| == nk && t <= 4
      requires filter == if above == [] then FIRST_ROW_FILTER[t] else t
      modifies buf
      ensures buf[cur..cur + nk] == Unfilter(t, raw, above, n)
    {
      assert raw[..nk] == raw && raw[..0] == [] && buf[cur..cur + 0] == [];
      if filter == F_NONE {
        FilterNone(cur, prior, raw, 0, nk, t, above);
      } else if filter == F_SUB {
        FilterSub(cur, prior, raw, t, above);
      } else if filter == F_UP {
        FilterUp(cur, prior, raw, nk, t, above);
      } else if filter == F_AVG {
        FilterAverage(cur, prior, raw, above);
      } else if filter == F_PAETH {
        FilterPaeth(cur, prior, raw, above);
      } else {
        FilterAverageFirst(cur, prior, raw);
      }
    }

    /** Row `j`: the two halves change places every row. */
    method NextRow(t: nat, j: nat, raw: seq<byte>, ghost above: seq<byte>) returns (cur: nat)
      requires |raw| == nk && t <= 4 && (j == 0 <==> above == [])
      requires Halves(if j % 2 == 1 then nk else 0, if j % 2 == 1 then 0 else nk, above)
      modifies buf
      ensures Halves(if j % 2 == 1 then 0 else nk, if j % 2 == 1 then nk else 0, Unfilter(t, raw, above, n))
      ensures cur + nk <= buf.Length && buf[cur..cur + nk] == Unfilter(t, raw, above, n)
    {
      cur := if j % 2 == 1 then nk else 0;
      var prior := if j % 2 == 1 then 0 else nk;
      var filter := if j == 0 then FIRST_ROW_FILTER[t] else t;
      DefilterRow(filter, cur, prior, raw, t, above);
    }
  }

  /** What is done, in front of the rest. */
  function Prepend(done: seq<seq<byte>>, r: Option<seq<seq<byte>>>): Option<seq<seq<byte>>> {
    match r
    case None => None
    case Some(rest) => Some(done + rest)
  }

  lemma {:induction false} PrependMore(done: seq<seq<byte>>, row: seq<byte>, r: Option<seq<seq<byte>>>)
    ensures Prepend(done + [row], r) == Prepend(done, Prepend([row], r))
  {
    if r.Some? { assert done + [row] + r.value == done + ([row] + r.value); }
  }

  lemma {:induction false} PrependLast(done: seq<seq<byte>>)
    ensures Prepend(done, None) == None && Prepend(done, Some([])) == Some(done)
  {
    assert done + [] == done;
  }

  lemma {:induction false} PrependNothing(r: Option<seq<seq<byte>>>)
    ensures Prepend([], r) == r
  {
    if r.Some? { assert [] + r.value == r.value; }
  }

  /** One row of the specification. */
  lemma {:induction false} RowsStep(raw: seq<byte>, at: nat, nk: nat, n: nat, y: nat, prior: seq<byte>)
    requires n > 0 && y > 0 && at + 1 + nk <= |raw|
    ensures Rows(raw[at..], nk, n, y, prior)
         == if raw[at] > 4 then None
            else
              var row := Unfilter(raw[at], raw[at + 1..at + 1 + nk], prior, n);
              Prepend([row], Rows(raw[at + 1 + nk..], nk, n, y - 1, row))
  {
    var rest := raw[at..];
    assert rest[0] == raw[at] && rest[1..1 + nk] == raw[at + 1..at + 1 + nk] && rest[1 + nk..] == raw[at + 1 + nk..];
  }

  /** The bytes of `y` filtered rows. */
  function RowBytes(nk: nat, y: nat): nat { (nk + 1) * y }

  /** Restores an image's rows; none if the data is short or a filter is unknown. */
  method CreateImageRaw(raw: seq<byte>, nk: nat, n: nat, y: nat) returns (r: Option<seq<seq<byte>>>)
    requires 0 < n <= nk
    ensures r == Rows(raw, nk, n, y, [])
  {
    hide Rows, Unfilter, FilterBuffer.Halves, Prepend, RowBytes;
    if |raw| < RowBytes(nk, y) {
      ShortIsNone(raw, nk, n, y, []);
      return None;
    }
    var b := new FilterBuffer(nk, n);
    var out: seq<seq<byte>> := [];
    ghost var above: seq<byte> := [];
    var at := 0;
    PrependNothing(Rows(raw, nk, n, y, []));
    assert raw[0..] == raw;
    for j := 0 to y
      invariant at + RowBytes(nk, y - j) <= |raw| && fresh(b.buf) && b.nk == nk && b.n == n && (j == 0 <==> above == [])
      invariant b.Halves(if j % 2 == 1 then nk else 0, if j % 2 == 1 then 0 else nk, above)
      invariant Rows(raw, nk, n, y, []) == Prepend(out, Rows(raw[at..], nk, n, y - j, above))
    {
      MoreRows(nk, y - j);
      RowsStep(raw, at, nk, n, y - j, above);
      var filter: nat := raw[at];
      PrependLast(out);
      if filter > 4 {
        return None;
      }
      ghost var row := Unfilter(filter, raw[at + 1..at + 1 + nk], above, n);
      PrependMore(out, row, Rows(raw[at + 1 + nk..], nk, n, y - j - 1, row));
      var cur := b.NextRow(filter, j, raw[at + 1..at + 1 + nk], above);
      out := out + [b.buf[cur..cur + nk]];
      above := row;
      at := at + 1 + nk;
    }
    NoMoreRows(raw[at..], nk, n, above);
    PrependLast(out);
    r := Some(out);
  }

  lemma {:induction false} NoMoreRows(raw: seq<byte>, nk: nat, n: nat, prior: seq<byte>)
    requires n > 0
    ensures Rows(raw, nk, n, 0, prior) == Some([])
  {
  }

  lemma {:induction false} MoreRows(nk: nat, left: nat)
    requires left > 0
    ensures RowBytes(nk, left) == RowBytes(nk, left - 1) + nk + 1
  {
    Distribute(left, 1, nk + 1);
    Commute(nk + 1, left);
    Commute(nk + 1, left - 1);
  }

  lemma {:induction false} ShortIsNone(raw: seq<byte>, nk: nat, n: nat, y: nat, prior: seq<byte>)
    requires n > 0 && |raw| < RowBytes(nk, y)
    ensures Rows(raw, nk, n, y, prior).None?
    decreases y
  {
    hide Unfilter;
    if y > 0 { MoreRows(nk, y); }
    if y > 0 && |raw| >= 1 + nk && raw[0] <= 4 {
      ShortIsNone(raw[1 + nk..], nk, n, y - 1, Unfilter(raw[0], raw[1..1 + nk], prior, n));
    }
  }

  predicate KnownTypes(raw: seq<byte>, nk: nat, y: nat)
    requires |raw| >= RowBytes(nk, y)
  {
    y == 0 || (MoreRows(nk, y); raw[0] <= 4 && KnownTypes(raw[1 + nk..], nk, y - 1))
  }

  /** There are rows exactly when there is data enough and every row's filter is known. */
  lemma {:induction false} RowsExistIff(raw: seq<byte>, nk: nat, n: nat, y: nat, prior: seq<byte>)
    requires n > 0
    ensures Rows(raw, nk, n, y, prior).Some? <==> |raw| >= RowBytes(nk, y) && KnownTypes(raw, nk, y)
    decreases y
  {
    hide Unfilter, RowBytes;
    if |raw| < RowBytes(nk, y) {
      ShortIsNone(raw, nk, n, y, prior);
    } else if y > 0 {
      MoreRows(nk, y);
      if raw[0] <= 4 { RowsExistIff(raw[1 + nk..], nk, n, y - 1, Unfilter(raw[0], raw[1..1 + nk], prior, n)); }
    }
  }

  /** An image survives filtering, compressing, decompressing and restoring, whatever filters were chosen. */
  method ImageRoundTrip(img: Image, force: int, quality: int) returns (ok: bool, rows: seq<seq<byte>>)
    requires img.Valid() && img.height > 0
    requires (img.width * img.n + 1) * img.height <= ZCompress.MAX_LENGTH
    ensures ok && |rows| == img.height && forall y :: 0 <= y < img.height ==> rows[y] == img.Row(y)
  {
    hide Image.Valid, Filtered, Rows, RowsFrom;
    var filt, types := FilterImage(img, force);
    AllRows(img, types);
    ok, filt := ZCompress.RoundTrip(filt, quality, |filt|);
    var r := CreateImageRaw(filt, img.width * img.n, img.n, img.height);
    rows := r.value;
  }

  lemma {:induction false} AllRows(img: Image, types: seq<nat>)
    requires img.Valid() && img.height > 0 && FilterTypes(types) && |types| == img.height
    ensures |Filtered(img, types)| == (img.width * img.n + 1) * img.height > 0
    ensures 0 < img.n <= img.width * img.n
    ensures Rows(Filtered(img, types), img.width * img.n, img.n, img.height, []) == Some(RowsFrom(img, 0))
    ensures forall y :: 0 <= y < img.height ==> RowsFrom(img, 0)[y] == img.Row(y)
  {
    hide Image.Valid, Filtered, Rows, RowsFrom;
    OnePixel(img);
    FilteredLength(img, types);
    NothingFiltered(img, types);
    FilteredSplits(img, types, 0);
    RowsRoundTrip(img, types, 0, []);
    assert FilteredFrom(img, types, 0) + [] == FilteredFrom(img, types, 0);
    forall y: nat | y < img.height ensures RowsFrom(img, 0)[y] == img.Row(y) { RowAt(img, 0, y); }
  }

  lemma {:induction false} NothingFiltered(img: Image, types: seq<nat>)
    requires img.Valid() && img.height > 0 && FilterTypes(types) && |types| == img.height
    ensures Filtered(img, types[..0]) + FilteredFrom(img, types, 0) == FilteredFrom(img, types, 0)
    ensures Previous(img, 0) == [] && img.n > 0
  {
  }

  lemma {:induction false} FilteredLength(img: Image, types: seq<nat>)
    requires img.Valid() && FilterTypes(types) && |types| <= img.height
    ensures |Filtered(img, types)| == (img.width * img.n + 1) * |types|
  {
    hide Image.Valid, Line;
    if types != [] { FilteredLength(img, types[..|types| - 1]); }
  }

  lemma {:induction false} RowAt(img: Image, from: nat, y: nat)
    requires img.Valid() && from <= y < img.height
    ensures RowsFrom(img, from)[y - from] == img.Row(y)
    decreases y - from
  {
    hide Image.Valid;
    if from < y { RowAt(img, from + 1, y); }
  }
}
