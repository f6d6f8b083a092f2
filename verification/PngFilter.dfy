/** Filtering the rows of an image for PNG, and undoing it. */
module PngFilter {
  import opened Arithmetic
  import opened Bits

  // ---- The filters of sections 6.2 to 6.6 of RFC 2083 ----

  function Abs(x: int): nat { if x < 0 then -x else x }

  /** The writer's predictor: whichever neighbour is nearest to a + b - c, in the order left, above, corner. */
  function Paeth(a: int, b: int, c: int): int {
    var p := a + b - c;
    var pa, pb, pc := Abs(p - a), Abs(p - b), Abs(p - c);
    if pa <= pb && pa <= pc then a else if pb <= pc then b else c
  }

  /** The reader's predictor, arranged to need no branches. */
  function PaethBranchFree(a: int, b: int, c: int): int {
    var thresh := c * 3 - (a + b);
    var lo := if a < b then a else b;
    var hi := if a < b then b else a;
    var t0 := if hi <= thresh then lo else c;
    var t1 := if thresh <= lo then hi else t0;
    t1
  }

  lemma {:induction false} PaethsAgree(a: int, b: int, c: int)
    ensures PaethBranchFree(a, b, c) == Paeth(a, b, c)
  {
  }

  /** What each filter type predicts from the left, above and corner bytes. */
  function Predict(t: nat, a: byte, b: byte, c: byte): (r: byte)
    requires t <= 4
  {
    if t == 0 then 0 else if t == 1 then a else if t == 2 then b else if t == 3 then Average(a, b) else Paeth(a, b, c)
  }

  function Average(a: int, b: int): int { (a + b) / 2 }

  /** Bytes outside a row count as zero. */
  function At(s: seq<byte>, i: int): byte { if 0 <= i < |s| then s[i] else 0 }

  function Wrap(x: int): byte { x % 256 }

  /** A row filtered against the row above; `n` bytes make a pixel. */
  function Filter(t: nat, row: seq<byte>, prior: seq<byte>, n: nat): (r: seq<byte>)
    requires t <= 4
    ensures |r| == |row|
  {
    seq(|row|, i requires 0 <= i < |row| => Wrap(row[i] as int - Predict(t, At(row, i - n), At(prior, i), At(prior, i - n))))
  }

  function Unfilter(t: nat, raw: seq<byte>, prior: seq<byte>, n: nat): (r: seq<byte>)
    requires t <= 4 && n > 0
    ensures |r| == |raw|
  {
    if raw == [] then []
    else
      var k := |raw| - 1;
      var cur := Unfilter(t, raw[..k], prior, n);
      cur + [Restored(t, raw[k], cur, prior, k, n)]
  }

  /** One byte, from what is already restored of the row and the row above. */
  function Restored(t: nat, x: byte, cur: seq<byte>, prior: seq<byte>, k: nat, n: nat): byte
    requires t <= 4
  {
    Wrap(x as int + Predict(t, At(cur, k - n), At(prior, k), At(prior, k - n)))
  }

  lemma {:induction false} UnfilterStep(t: nat, raw: seq<byte>, prior: seq<byte>, n: nat, k: nat)
    requires t <= 4 && n > 0 && k < |raw|
    ensures var cur := Unfilter(t, raw[..k], prior, n);
      Unfilter(t, raw[..k + 1], prior, n) == cur + [Restored(t, raw[k], cur, prior, k, n)]
  {
    assert raw[..k + 1][..k] == raw[..k];
  }

  lemma {:induction false} FilteredByte(t: nat, row: seq<byte>, prior: seq<byte>, n: nat, k: nat)
    requires t <= 4 && n > 0 && k < |row|
    ensures Restored(t, Filter(t, row, prior, n)[k], row[..k], prior, k, n) == row[k]
  {
    hide Predict, Wrap;
    assert At(row[..k], k - n) == At(row, k - n);
    Cancel(row[k], Predict(t, At(row, k - n), At(prior, k), At(prior, k - n)));
  }

  /** Unfiltering a filtered row gives the row back. */
  lemma {:induction false} FilterRoundTrip(t: nat, row: seq<byte>, prior: seq<byte>, n: nat, k: nat)
    requires t <= 4 && n > 0 && k <= |row|
    ensures Unfilter(t, Filter(t, row, prior, n)[..k], prior, n) == row[..k]
  {
    hide Filter, Restored;
    if k > 0 {
      var raw := Filter(t, row, prior, n);
      FilterRoundTrip(t, row, prior, n, k - 1);
      UnfilterStep(t, raw, prior, n, k - 1);
      FilteredByte(t, row, prior, n, k - 1);
      assert row[..k] == row[..k - 1] + [row[k - 1]];
    }
  }

  lemma {:induction false} UnfilterPrefix(t: nat, raw: seq<byte>, prior: seq<byte>, n: nat, k: nat)
    requires t <= 4 && n > 0 && k <= |raw|
    ensures Unfilter(t, raw[..k], prior, n) == Unfilter(t, raw, prior, n)[..k]
    decreases |raw| - k
  {
    hide Restored;
    if k == |raw| {
      assert raw[..k] == raw;
    } else {
      UnfilterPrefix(t, raw, prior, n, k + 1);
      UnfilterStep(t, raw, prior, n, k);
    }
  }

  /** Filtering an unfiltered row gives its bytes back: any bytes are some row's. */
  lemma {:induction false} UnfilterRoundTrip(t: nat, raw: seq<byte>, prior: seq<byte>, n: nat)
    requires t <= 4 && n > 0
    ensures Filter(t, Unfilter(t, raw, prior, n), prior, n) == raw
  {
    hide Filter, Predict, Wrap, Unfilter;
    var row := Unfilter(t, raw, prior, n);
    forall k | 0 <= k < |raw| ensures Filter(t, row, prior, n)[k] == raw[k] {
      UnfilterPrefix(t, raw, prior, n, k);
      UnfilterPrefix(t, raw, prior, n, k + 1);
      UnfilterStep(t, raw, prior, n, k);
      FilterAt(t, row, prior, n, k);
      assert At(row[..k], k - n) == At(row, k - n);
      assert row[k] == row[..k + 1][k];
      CancelBack(raw[k], Predict(t, At(row, k - n), At(prior, k), At(prior, k - n)));
    }
  }

  lemma {:induction false} CancelBack(x: byte, p: byte)
    ensures Wrap(Wrap(x as int + p) as int - p) == x
  {
  }

  /** `v` is nearest to a + b - c of the three neighbours, and none before it, in that order, is as near. */
  predicate Nearest(v: int, a: int, b: int, c: int) {
    var p := a + b - c;
    || (v == a && Abs(p - a) <= Abs(p - b) && Abs(p - a) <= Abs(p - c))
    || (v == b && Abs(p - b) < Abs(p - a) && Abs(p - b) <= Abs(p - c))
    || (v == c && Abs(p - c) < Abs(p - a) && Abs(p - c) < Abs(p - b))
  }

  lemma {:induction false} PaethIsNearest(v: int, a: int, b: int, c: int)
    ensures v == Paeth(a, b, c) <==> Nearest(v, a, b, c)
  {
  }

  /** Each type has a zero exactly where it predicts the byte: zero, the left byte, the one above, their mean
      rounded down, and the nearest of the neighbours. */
  lemma {:induction false} ZeroWhere(row: seq<byte>, prior: seq<byte>, n: nat, i: nat)
    requires i < |row|
    ensures var x, a, b, c := row[i], At(row, i - n), At(prior, i), At(prior, i - n);
      && (Filter(0, row, prior, n)[i] == 0 <==> x == 0)
      && (Filter(1, row, prior, n)[i] == 0 <==> x == a)
      && (Filter(2, row, prior, n)[i] == 0 <==> x == b)
      && (Filter(3, row, prior, n)[i] == 0 <==> 2 * x as int <= a as int + b as int <= 2 * x as int + 1)
      && (Filter(4, row, prior, n)[i] == 0 <==> Nearest(x, a, b, c))
  {
    hide Filter, Paeth, Nearest;
    var x, a, b, c := row[i], At(row, i - n), At(prior, i), At(prior, i - n);
    PaethIsNearest(x, a, b, c);
    forall t | 0 <= t <= 4 ensures Filter(t, row, prior, n)[i] == 0 <==> x == Predict(t, a, b, c) {
      FilterAt(t, row, prior, n, i);
      ZeroDifference(x, Predict(t, a, b, c));
    }
  }

  lemma {:induction false} ZeroDifference(x: byte, p: byte)
    ensures Wrap(x as int - p) == 0 <==> x == p
  {
  }

  lemma {:induction false} FilterAt(t: nat, row: seq<byte>, prior: seq<byte>, n: nat, i: nat)
    requires t <= 4 && i < |row|
    ensures Filter(t, row, prior, n)[i] == Wrap(row[i] as int - Predict(t, At(row, i - n), At(prior, i), At(prior, i - n)))
  {
  }

  lemma {:induction false} Cancel(x: byte, p: byte)
    ensures Wrap(Wrap(x as int - p) as int + p) == x
  {
  }

  // ---- Writing one row ----

  /** An image in memory: rows `stride` bytes apart, written from the top or from the bottom. */
  datatype Image = Image(pixels: seq<byte>, stride: nat, width: nat, height: nat, n: nat, flip: bool) {
    predicate Valid() {
      n > 0 && width > 0 && width * n <= stride && forall y :: 0 <= y < height ==> Start(y) + width * n <= |pixels|
    }

    function Start(y: nat): nat
      requires y < height
    {
      stride * (if flip then height - 1 - y else y)
    }

    function Row(y: nat): (r: seq<byte>)
      requires Valid() && y < height
      ensures |r| == width * n
    {
      pixels[Start(y)..Start(y) + width * n]
    }

    /** The row above, or zeros above the first. */
    function Above(y: nat): (r: seq<byte>)
      requires Valid() && y < height
    {
      if y == 0 then [] else Row(y - 1)
    }
  }

  /** Pixel by pixel: rows follow each other a stride apart, from the last row up when the image is flipped. */
  lemma {:induction false} PixelAt(img: Image, y: nat, x: nat, k: nat)
    requires img.Valid() && y < img.height && x < img.width && k < img.n
    ensures x * img.n + k < |img.Row(y)|
    ensures var from := if img.flip then img.height - 1 - y else y;
      && from * img.stride + x * img.n + k < |img.pixels|
      && img.Row(y)[x * img.n + k] == img.pixels[from * img.stride + x * img.n + k]
  {
    var from := if img.flip then img.height - 1 - y else y;
    InRow(x, img.width, k, img.n);
    assert from * img.stride == img.Start(y);
    assert img.Row(y)[x * img.n + k] == img.pixels[img.Start(y) + (x * img.n + k)];
  }

  lemma {:induction false} InRow(x: nat, width: nat, k: nat, n: nat)
    requires x < width && k < n
    ensures x * n + k < width * n
  {
    Distribute(x, 1, n);
    Scale(x + 1, width, n);
  }

  const FIRSTMAP: seq<nat> := [0, 1, 0, 5, 6]

  /** A pixel byte of row `y`, and the one above it, which lies a signed stride away. */
  function Here(img: Image, y: nat, i: nat): (r: byte)
    requires img.Valid() && y < img.height && i < img.width * img.n
    ensures r == img.Row(y)[i]
  {
    img.pixels[img.Start(y) + i]
  }

  function Over(img: Image, y: nat, i: nat): (r: byte)
    requires img.Valid() && 0 < y < img.height && i < img.width * img.n
    ensures r == img.Row(y - 1)[i]
  {
    var signedStride: int := if img.flip then -(img.stride as int) else img.stride as int;
    assert img.Start(y) - signedStride == img.Start(y - 1) by {
      if img.flip { NextMultiple(img.stride, img.height - 1 - y); } else { NextMultiple(img.stride, y - 1); }
    }
    img.pixels[img.Start(y) + i - signedStride]
  }

  lemma {:induction false} NextMultiple(stride: nat, k: nat)
    ensures stride * (k + 1) == stride * k + stride
  {
  }

  /** What is subtracted within the first pixel.  Types 5 and 6 are average and Paeth with nothing above. */
  function FirstPixel(img: Image, y: nat, t: nat, i: nat): byte
    requires img.Valid() && y < img.height && i < img.n && t <= 6 && (y == 0 ==> t in {1, 5, 6}) && img.n <= img.width * img.n
  {
    match t
    case 2 => Over(img, y, i)
    case 3 => Over(img, y, i) / 2
    case 4 => Paeth(0, Over(img, y, i), 0)
    case _ => 0
  }

  function OtherPixels(img: Image, y: nat, t: nat, i: nat): byte
    requires img.Valid() && y < img.height && img.n <= i < img.width * img.n && 1 <= t <= 6 && (y == 0 ==> t in {1, 5, 6})
  {
    match t
    case 1 => Here(img, y, i - img.n)
    case 2 => Over(img, y, i)
    case 3 => Average(Here(img, y, i - img.n), Over(img, y, i))
    case 4 => Paeth(Here(img, y, i - img.n), Over(img, y, i), Over(img, y, i - img.n))
    case 5 => Here(img, y, i - img.n) / 2
    case _ => Paeth(Here(img, y, i - img.n), 0, 0)
  }

  lemma {:induction false} OnePixel(img: Image)
    requires img.Valid()
    ensures img.n <= img.width * img.n
  {
    NextMultiple(img.n, img.width - 1);
  }

  /** The filtered form of row `y`. */
  function Line(img: Image, y: nat, t: nat): (r: seq<byte>)
    requires img.Valid() && y < img.height && t <= 4
    ensures |r| == img.width * img.n
  {
    Filter(t, img.Row(y), img.Above(y), img.n)
  }

  lemma {:induction false} CopiedByte(img: Image, y: nat, t: nat, i: nat)
    requires img.Valid() && y < img.height && i < img.width * img.n && t <= 4 && (t == 0 || (y == 0 && t == 2))
    ensures Here(img, y, i) == Line(img, y, t)[i]
  {
  }

  lemma {:induction false} NothingAround()
    ensures Paeth(0, 0, 0) == 0
  {
  }

  /** Within the first pixel there is nothing to the left. */
  lemma {:induction false} FirstPixelByte(img: Image, y: nat, t: nat, i: nat)
    requires img.Valid() && y < img.height && i < img.n <= img.width * img.n && 0 < t <= 4 && (y == 0 ==> t != 2)
    ensures Wrap(Here(img, y, i) as int - FirstPixel(img, y, if y == 0 then FIRSTMAP[t] else t, i)) == Line(img, y, t)[i]
  {
    hide Paeth, Wrap, Filter, Image.Start, Image.Row, Image.Valid;
    NothingAround();
    FilterAt(t, img.Row(y), img.Above(y), img.n, i);
  }

  lemma {:induction false} OtherPixelByte(img: Image, y: nat, t: nat, i: nat)
    requires img.Valid() && y < img.height && img.n <= i < img.width * img.n && 0 < t <= 4 && (y == 0 ==> t != 2)
    ensures Wrap(Here(img, y, i) as int - OtherPixels(img, y, if y == 0 then FIRSTMAP[t] else t, i)) == Line(img, y, t)[i]
  {
    hide Paeth, Wrap, Filter, Image.Start, Image.Row, Image.Valid;
    NothingAround();
    FilterAt(t, img.Row(y), img.Above(y), img.n, i);
  }

  method EncodePngLine(img: Image, y: nat, filterType: nat, line: array<byte>)
    requires img.Valid() && y < img.height && filterType <= 4 && line.Length == img.width * img.n
    modifies line
    ensures line[..] == Line(img, y, filterType)
  {
    hide Image.Valid, FirstPixel, OtherPixels, Line, Wrap;
    var t := if y != 0 then filterType else FIRSTMAP[filterType];
    OnePixel(img);
    ghost var spec := Line(img, y, filterType);
    if t == 0 {
      for i := 0 to line.Length
        invariant forall k :: 0 <= k < i ==> line[k] == spec[k]
      {
        CopiedByte(img, y, filterType, i);
        line[i] := Here(img, y, i);
      }
      return;
    }
    for i := 0 to img.n
      invariant forall k :: 0 <= k < i ==> line[k] == spec[k]
    {
      FirstPixelByte(img, y, filterType, i);
      line[i] := Wrap(Here(img, y, i) as int - FirstPixel(img, y, t, i));
    }
    for i := img.n to line.Length
      invariant forall k :: 0 <= k < i ==> line[k] == spec[k]
    {
      OtherPixelByte(img, y, filterType, i);
      line[i] := Wrap(Here(img, y, i) as int - OtherPixels(img, y, t, i));
    }
  }

  // ---- Writing all rows ----

  /** The sum of the magnitudes of the bytes, read as signed numbers. */
  function Estimate(line: seq<byte>): nat {
    if line == [] then 0 else Estimate(line[..|line| - 1]) + Abs(Signed(line[|line| - 1]))
  }

  function Signed(b: byte): int { if b < 128 then b else b as int - 256 }

  /** The number of least magnitude that the byte can stand for. */
  lemma {:induction false} SignedIsLeast(b: byte, k: int)
    ensures Wrap(Signed(b)) == b
    ensures Wrap(k) == b ==> Abs(Signed(b)) <= Abs(k)
  {
    if Wrap(k) == b { assert k == k / 256 * 256 + b; }
  }

  method EstimateLine(line: array<byte>) returns (est: nat)
    ensures est == Estimate(line[..])
  {
    est := 0;
    for i := 0 to line.Length
      invariant est == Estimate(line[..i])
    {
      assert line[..i + 1][..i] == line[..i];
      est := est + Abs(Signed(line[i]));
    }
    assert line[..line.Length] == line[..];
  }

  /** The first of the types with the least estimate, or type 0 if no estimate is below the initial bound. */
  ghost predicate IsFirstBest(img: Image, y: nat, filterType: nat)
    requires img.Valid() && y < img.height
  {
    && filterType <= 4
    && if Estimate(Line(img, y, filterType)) < 0x7fff_ffff
       then forall t :: 0 <= t <= 4 ==> Estimate(Line(img, y, filterType)) < Estimate(Line(img, y, t))
                                        || (t >= filterType && Estimate(Line(img, y, filterType)) == Estimate(Line(img, y, t)))
       else filterType == 0 && forall t :: 0 <= t <= 4 ==> Estimate(Line(img, y, t)) >= 0x7fff_ffff
  }

  /** Chooses a filter, unless one is forced, and leaves the filtered row in `line`. */
  method BestFilter(img: Image, y: nat, force: int, line: array<byte>) returns (filterType: nat)
    requires img.Valid() && y < img.height && force <= 4 && line.Length == img.width * img.n
    modifies line
    ensures filterType <= 4 && line[..] == Line(img, y, filterType)
    ensures force > -1 ==> filterType == force
    ensures force <= -1 ==> IsFirstBest(img, y, filterType)
  {
    hide Image.Valid, Line, Estimate;
    if force > -1 {
      filterType := force;
      EncodePngLine(img, y, force, line);
    } else {
      var best, bestVal := 0, 0x7fff_ffff;
      filterType := 0;
      while filterType < 5
        invariant filterType <= 5 && best <= 4 && bestVal <= 0x7fff_ffff
        invariant if bestVal < 0x7fff_ffff then bestVal == Estimate(Line(img, y, best)) else best == 0
        invariant forall t :: 0 <= t < filterType ==> bestVal <= Estimate(Line(img, y, t))
        invariant bestVal < 0x7fff_ffff ==> best < filterType && forall t :: 0 <= t < best ==> bestVal < Estimate(Line(img, y, t))
      {
        EncodePngLine(img, y, filterType, line);
        var est := EstimateLine(line);
        if est < bestVal {
          best, bestVal := filterType, est;
        }
        filterType := filterType + 1;
      }
      EncodePngLine(img, y, best, line);
      filterType := best;
    }
  }

  predicate FilterTypes(types: seq<nat>) { forall k :: 0 <= k < |types| ==> types[k] <= 4 }

  /** The filtered image: each row after its filter type. */
  function Filtered(img: Image, types: seq<nat>): (r: seq<byte>)
    requires img.Valid() && |types| <= img.height && FilterTypes(types)
  {
    if types == [] then []
    else
      var y := |types| - 1;
      Filtered(img, types[..y]) + [types[y] as byte] + Line(img, y, types[y])
  }

  method FilterImage(img: Image, force: int) returns (filt: seq<byte>, ghost types: seq<nat>)
    requires img.Valid()
    ensures |types| == img.height && FilterTypes(types) && filt == Filtered(img, types)
  {
    hide Line;
    var forced := if force >= 5 then -1 else force;
    var line := new byte[img.width * img.n];
    filt, types := [], [];
    for j := 0 to img.height
      invariant fresh(line) && |types| == j && FilterTypes(types) && filt == Filtered(img, types)
    {
      var filterType := BestFilter(img, j, forced, line);
      assert (types + [filterType])[..j] == types;
      filt := filt + [filterType as byte] + line[..];
      types := types + [filterType];
    }
  }
}
