/** Putting the seven passes of an interlaced PNG together. */
module Adam7 {
  import opened Arithmetic

  function XOrigin(p: nat): nat { if p == 1 then 4 else if p == 3 then 2 else if p == 5 then 1 else 0 }
  function YOrigin(p: nat): nat { if p == 2 then 4 else if p == 4 then 2 else if p == 6 then 1 else 0 }
  function XSpacing(p: nat): nat { if p <= 1 then 8 else if p <= 3 then 4 else if p <= 5 then 2 else 1 }
  function YSpacing(p: nat): nat { if p <= 2 then 8 else if p <= 4 then 4 else 2 }

  /** How many of the first `n` positions a pass has in one direction. */
  function PassSize(n: nat, origin: nat, spacing: nat): (r: nat)
    requires n > 0 && origin < spacing
  {
    (n - origin + spacing - 1) / spacing
  }

  /** Section 2.6 of RFC 2083: the pass a pixel of each 8 by 8 tile belongs to. */
  function PassOf(x: nat, y: nat): (p: nat)
    ensures p < 7
  {
    if y % 2 == 1 then 6
    else if x % 2 == 1 then 5
    else if y % 4 == 2 then 4
    else if x % 4 == 2 then 3
    else if y % 8 == 4 then 2
    else if x % 8 == 4 then 1
    else 0
  }

  /** The tile of section 2.6 of RFC 2083, where passes are counted from one. */
  const TILE: seq<seq<nat>> :=
    [[1, 6, 4, 6, 2, 6, 4, 6],
     [7, 7, 7, 7, 7, 7, 7, 7],
     [5, 6, 5, 6, 5, 6, 5, 6],
     [7, 7, 7, 7, 7, 7, 7, 7],
     [3, 6, 4, 6, 3, 6, 4, 6],
     [7, 7, 7, 7, 7, 7, 7, 7],
     [5, 6, 5, 6, 5, 6, 5, 6],
     [7, 7, 7, 7, 7, 7, 7, 7]]

  lemma {:induction false} PassIsTile(x: nat, y: nat)
    ensures PassOf(x, y) + 1 == TILE[y % 8][x % 8]
  {
    EightOf(x);
    EightOf(y);
    TileRow(y % 8, x % 8);
  }

  lemma {:induction false} TileRow(r: nat, c: nat)
    requires r < 8 && c < 8
    ensures TILE[r][c] == PassOf(c, r) + 1
  {
    match c { case 0 => case 1 => case 2 => case 3 => case 4 => case 5 => case 6 => case _ => }
  }

  /** Pass `p` has pixel (i, j) at (x, y). */
  predicate Covers(w: nat, h: nat, p: nat, i: nat, j: nat, x: nat, y: nat)
    requires w > 0 && h > 0 && p < 7
  {
    && i < PassSize(w, XOrigin(p), XSpacing(p)) && j < PassSize(h, YOrigin(p), YSpacing(p))
    && x == i * XSpacing(p) + XOrigin(p) && y == j * YSpacing(p) + YOrigin(p)
  }

  lemma {:induction false} Position(n: nat, origin: nat, spacing: nat, x: nat)
    requires n > 0 && origin < spacing && spacing in {1, 2, 4, 8}
    ensures x < n && x % spacing == origin <==> x / spacing < PassSize(n, origin, spacing) && x == x / spacing * spacing + origin
  {
  }

  lemma {:induction false} Index(i: nat, origin: nat, spacing: nat)
    requires origin < spacing
    ensures (i * spacing + origin) / spacing == i
  {
    Remainder(i * spacing + origin, i, origin, spacing);
  }

  lemma {:induction false} Tile(x: nat, y: nat, p: nat)
    requires p < 7
    ensures PassOf(x, y) == p <==> x % XSpacing(p) == XOrigin(p) && y % YSpacing(p) == YOrigin(p)
  {
    EightOf(x);
    EightOf(y);
  }

  lemma {:induction false} EightOf(x: nat)
    ensures x % 8 < 8 && x % 4 == (x % 8) % 4 && x % 2 == (x % 8) % 2
  {
  }

  /** Every pixel belongs to its pass at one place, and to no other. */
  lemma {:induction false} CoversIff(w: nat, h: nat, p: nat, i: nat, j: nat, x: nat, y: nat)
    requires w > 0 && h > 0 && p < 7
    ensures Covers(w, h, p, i, j, x, y) <==>
      x < w && y < h && p == PassOf(x, y) && i == x / XSpacing(p) && j == y / YSpacing(p)
  {
    Position(w, XOrigin(p), XSpacing(p), x);
    Position(h, YOrigin(p), YSpacing(p), y);
    Tile(x, y, p);
    if x == i * XSpacing(p) + XOrigin(p) { Index(i, XOrigin(p), XSpacing(p)); }
    if y == j * YSpacing(p) + YOrigin(p) { Index(j, YOrigin(p), YSpacing(p)); }
  }

  function Area(w: nat, h: nat, p: nat): nat
    requires w > 0 && h > 0 && p < 7
  {
    PassSize(w, XOrigin(p), XSpacing(p)) * PassSize(h, YOrigin(p), YSpacing(p))
  }

  /** Two interleaved passes make one of half the spacing. */
  lemma {:induction false} Halves(n: nat)
    requires n > 0
    ensures PassSize(n, 0, 8) + PassSize(n, 4, 8) == PassSize(n, 0, 4)
    ensures PassSize(n, 0, 4) + PassSize(n, 2, 4) == PassSize(n, 0, 2)
    ensures PassSize(n, 0, 2) + PassSize(n, 1, 2) == n == PassSize(n, 0, 1)
  {
  }

  /** The passes together have as many pixels as the image. */
  lemma {:induction false} AreasSum(w: nat, h: nat)
    requires w > 0 && h > 0
    ensures Area(w, h, 0) + Area(w, h, 1) + Area(w, h, 2) + Area(w, h, 3) + Area(w, h, 4) + Area(w, h, 5) + Area(w, h, 6) == w * h
  {
    hide PassSize;
    Halves(w);
    Halves(h);
    SumOfProducts(PassSize(w, 0, 8), PassSize(w, 4, 8), PassSize(w, 0, 4), PassSize(w, 2, 4), PassSize(w, 0, 2), PassSize(w, 1, 2), w,
                  PassSize(h, 0, 8), PassSize(h, 4, 8), PassSize(h, 0, 4), PassSize(h, 2, 4), PassSize(h, 0, 2), PassSize(h, 1, 2), h);
  }

  lemma {:induction false} SumOfProducts(a: int, a': int, b: int, b': int, c: int, c': int, d: int,
                                         r: int, r': int, s: int, s': int, t: int, t': int, u: int)
    requires a + a' == b && b + b' == c && c + c' == d && r + r' == s && s + s' == t && t + t' == u
    ensures a * r + a' * r + b * r' + b' * s + c * s' + c' * t + d * t' == d * u
  {
    Distribute(a, a', r);
    Spread(b, r, r');
    Distribute(b, b', s);
    Spread(c, s, s');
    Distribute(c, c', t);
    Spread(d, t, t');
  }

  lemma {:induction false} Spread(x: int, y: int, z: int)
    ensures x * (y + z) == x * y + x * z
  {
  }

  /** Where pixel (x, y) of rows of `w` pixels is kept. */
  function Offset(w: nat, x: nat, y: nat): nat { y * w + x }

  /** Rows of `w` pixels do not overlap. */
  lemma {:induction false} Cell(w: nat, h: nat, x: nat, y: nat)
    requires x < w && y < h
    ensures Offset(w, x, y) < h * w && Offset(w, x, y) / w == y && Offset(w, x, y) % w == x
  {
    Remainder(y * w + x, y, x, w);
    Scale(y + 1, h, w);
    Distribute(y, 1, w);
  }

  lemma {:induction false} Apart(w: nat, h: nat, x: nat, y: nat, x': nat, y': nat)
    requires x < w && y < h && x' < w && y' < h && (x != x' || y != y')
    ensures Offset(w, x, y) != Offset(w, x', y')
  {
    hide Offset;
    Cell(w, h, x, y);
    Cell(w, h, x', y');
  }

  /** Puts the passes' pixels in their places. */
  method Deinterlace<T(0)>(w: nat, h: nat, passes: seq<seq<T>>) returns (final: array<T>)
    requires w > 0 && h > 0 && |passes| == 7
    requires forall p :: 0 <= p < 7 ==> |passes[p]| == Area(w, h, p)
    ensures final.Length == h * w
    ensures forall x, y :: 0 <= x < w && 0 <= y < h ==> Placed(w, h, passes, final[..], x, y)
  {
    final := new T[h * w];
    for p := 0 to 7
      invariant fresh(final) && final.Length == h * w
      invariant forall x, y :: 0 <= x < w && 0 <= y < h && PassOf(x, y) < p ==> Placed(w, h, passes, final[..], x, y)
    {
      PlacePass(w, h, passes, final, p);
    }
  }

  /** The pixel at (x, y) is its pass's. */
  ghost predicate Placed<T>(w: nat, h: nat, passes: seq<seq<T>>, final: seq<T>, x: nat, y: nat)
    requires w > 0 && h > 0 && |passes| == 7 && x < w && y < h && |final| == h * w
  {
    Cell(w, h, x, y);
    var p := PassOf(x, y);
    var k := Offset(PassSize(w, XOrigin(p), XSpacing(p)), x / XSpacing(p), y / YSpacing(p));
    k < |passes[p]| && final[Offset(w, x, y)] == passes[p][k]
  }

  method PlacePass<T>(w: nat, h: nat, passes: seq<seq<T>>, final: array<T>, p: nat)
    requires w > 0 && h > 0 && |passes| == 7 && p < 7 && final.Length == h * w
    requires forall q :: 0 <= q < 7 ==> |passes[q]| == Area(w, h, q)
    requires forall x, y :: 0 <= x < w && 0 <= y < h && PassOf(x, y) < p ==> Placed(w, h, passes, final[..], x, y)
    modifies final
    ensures forall x, y :: 0 <= x < w && 0 <= y < h && PassOf(x, y) < p + 1 ==> Placed(w, h, passes, final[..], x, y)
  {
    var cols, rows := PassSize(w, XOrigin(p), XSpacing(p)), PassSize(h, YOrigin(p), YSpacing(p));
    for j := 0 to rows
      invariant forall x, y :: 0 <= x < w && 0 <= y < h && DoneBy(p, j, 0, x, y) ==> Placed(w, h, passes, final[..], x, y)
    {
      for i := 0 to cols
        invariant forall x, y :: 0 <= x < w && 0 <= y < h && DoneBy(p, j, i, x, y) ==> Placed(w, h, passes, final[..], x, y)
      {
        PlaceOne(w, h, passes, final, p, i, j);
      }
      NextRow(w, h, p, j);
    }
    AllRows(w, h, p);
  }

  /** Earlier passes, and of this one the rows above and the pixels to the left. */
  predicate DoneBy(p: nat, j: nat, i: nat, x: nat, y: nat)
    requires p < 7
  {
    PassOf(x, y) < p || (PassOf(x, y) == p && (y / YSpacing(p) < j || (y / YSpacing(p) == j && x / XSpacing(p) < i)))
  }

  lemma {:induction false} NextRow(w: nat, h: nat, p: nat, j: nat)
    requires w > 0 && h > 0 && p < 7
    ensures forall x: nat, y: nat :: x < w && y < h && DoneBy(p, j + 1, 0, x, y) ==> DoneBy(p, j, PassSize(w, XOrigin(p), XSpacing(p)), x, y)
  {
    forall x: nat, y: nat | x < w && y < h && DoneBy(p, j + 1, 0, x, y)
      ensures DoneBy(p, j, PassSize(w, XOrigin(p), XSpacing(p)), x, y)
    {
      CoversIff(w, h, PassOf(x, y), x / XSpacing(PassOf(x, y)), y / YSpacing(PassOf(x, y)), x, y);
    }
  }

  lemma {:induction false} AllRows(w: nat, h: nat, p: nat)
    requires w > 0 && h > 0 && p < 7
    ensures forall x: nat, y: nat :: x < w && y < h && PassOf(x, y) < p + 1 ==> DoneBy(p, PassSize(h, YOrigin(p), YSpacing(p)), 0, x, y)
  {
    forall x: nat, y: nat | x < w && y < h && PassOf(x, y) < p + 1 ensures DoneBy(p, PassSize(h, YOrigin(p), YSpacing(p)), 0, x, y) {
      CoversIff(w, h, PassOf(x, y), x / XSpacing(PassOf(x, y)), y / YSpacing(PassOf(x, y)), x, y);
    }
  }

  method PlaceOne<T>(w: nat, h: nat, passes: seq<seq<T>>, final: array<T>, p: nat, i: nat, j: nat)
    requires w > 0 && h > 0 && |passes| == 7 && p < 7 && final.Length == h * w
    requires forall q :: 0 <= q < 7 ==> |passes[q]| == Area(w, h, q)
    requires i < PassSize(w, XOrigin(p), XSpacing(p)) && j < PassSize(h, YOrigin(p), YSpacing(p))
    requires forall x, y :: 0 <= x < w && 0 <= y < h && DoneBy(p, j, i, x, y) ==> Placed(w, h, passes, final[..], x, y)
    modifies final
    ensures forall x, y :: 0 <= x < w && 0 <= y < h && DoneBy(p, j, i + 1, x, y) ==> Placed(w, h, passes, final[..], x, y)
  {
    hide PassOf, PassSize, Placed, Offset;
    var outX, outY := i * XSpacing(p) + XOrigin(p), j * YSpacing(p) + YOrigin(p);
    var cols := PassSize(w, XOrigin(p), XSpacing(p));
    CoversIff(w, h, p, i, j, outX, outY);
    Cell(w, h, outX, outY);
    InPass(w, h, p, i, j);
    ghost var before := final[..];
    final[Offset(w, outX, outY)] := passes[p][Offset(cols, i, j)];
    forall x, y | 0 <= x < w && 0 <= y < h && DoneBy(p, j, i + 1, x, y) ensures Placed(w, h, passes, final[..], x, y) {
      Cell(w, h, x, y);
      if x == outX && y == outY {
        NewlyPlaced(w, h, passes, final[..], p, i, j, x, y);
      } else {
        Apart(w, h, x, y, outX, outY);
        CoversIff(w, h, p, x / XSpacing(p), y / YSpacing(p), x, y);
        StillPlaced(w, h, passes, before, final[..], x, y);
      }
    }
  }

  lemma {:induction false} InPass(w: nat, h: nat, p: nat, i: nat, j: nat)
    requires w > 0 && h > 0 && p < 7 && i < PassSize(w, XOrigin(p), XSpacing(p)) && j < PassSize(h, YOrigin(p), YSpacing(p))
    ensures Offset(PassSize(w, XOrigin(p), XSpacing(p)), i, j) < Area(w, h, p)
  {
    hide PassSize, Offset;
    Cell(PassSize(w, XOrigin(p), XSpacing(p)), PassSize(h, YOrigin(p), YSpacing(p)), i, j);
    Commute(PassSize(w, XOrigin(p), XSpacing(p)), PassSize(h, YOrigin(p), YSpacing(p)));
  }

  lemma {:induction false} NewlyPlaced<T>(w: nat, h: nat, passes: seq<seq<T>>, final: seq<T>, p: nat, i: nat, j: nat, x: nat, y: nat)
    requires w > 0 && h > 0 && |passes| == 7 && p < 7 && |final| == h * w && x < w && y < h && Offset(w, x, y) < h * w
    requires Covers(w, h, p, i, j, x, y) && Offset(PassSize(w, XOrigin(p), XSpacing(p)), i, j) < |passes[p]|
    requires final[Offset(w, x, y)] == passes[p][Offset(PassSize(w, XOrigin(p), XSpacing(p)), i, j)]
    ensures Placed(w, h, passes, final, x, y)
  {
    hide PassOf, PassSize, Offset;
    CoversIff(w, h, p, i, j, x, y);
  }

  lemma {:induction false} StillPlaced<T>(w: nat, h: nat, passes: seq<seq<T>>, final: seq<T>, final': seq<T>, x: nat, y: nat)
    requires w > 0 && h > 0 && |passes| == 7 && |final| == |final'| == h * w && x < w && y < h && Offset(w, x, y) < h * w
    requires final[Offset(w, x, y)] == final'[Offset(w, x, y)] && Placed(w, h, passes, final, x, y)
    ensures Placed(w, h, passes, final', x, y)
  {
  }
}
