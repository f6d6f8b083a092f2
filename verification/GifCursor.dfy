/** Where a GIF frame's pixels go: row by row, in four interleaved passes when the frame is interlaced. */
module GifCursor {
  import opened Arithmetic

  /** The rows still to come, from row `row` of a pass on: the rest of the pass, and the later passes. */
  predicate Left(a: nat, row: nat, step: nat, parse: nat)
    requires step > 0
  {
    || (a >= row && a % step == row % step)
    || (parse >= 3 && a % 8 == 4) || (parse >= 2 && a % 4 == 2) || (parse >= 1 && a % 2 == 1)
  }

  /** Appendix E of the GIF89a specification: every eighth row, from 0 and then from 4; every fourth from 2;
      every second from 1.  A frame that is not interlaced has the one pass. */
  predicate InPass(row: nat, step: nat, parse: nat) {
    || (step == 1 && parse == 0)
    || (parse == 3 && step == 8 && row % 8 == 0) || (parse == 2 && step == 8 && row % 8 == 4)
    || (parse == 1 && step == 4 && row % 4 == 2) || (parse == 0 && step == 2 && row % 2 == 1)
  }

  /** The pass a row of an interlaced frame is drawn in. */
  function PassOf(row: nat): nat { if row % 8 == 0 then 0 else if row % 4 == 0 then 1 else if row % 2 == 0 then 2 else 3 }

  predicate RowBefore(a: nat, b: nat, interlaced: bool) {
    if interlaced && PassOf(a) != PassOf(b) then PassOf(a) < PassOf(b) else a < b
  }

  /** One pixel is sent before another, each given by its row and column. */
  predicate Before(p: (nat, nat), q: (nat, nat), interlaced: bool) {
    RowBefore(p.0, q.0, interlaced) || (p.0 == q.0 && p.1 < q.1)
  }

  /** The rows that are no longer left come before the current one. */
  lemma {:induction false} DoneIsBefore(a: nat, row: nat, step: nat, parse: nat)
    requires InPass(row, step, parse)
    ensures step > 0 && (!Left(a, row, step, parse) ==> RowBefore(a, row, step != 1))
  {
    EightOf(a);
    EightOf(row);
    if step == 4 && a % 4 == 2 { assert row % 4 == 2; }
  }

  lemma {:induction false} EightOf(a: nat)
    ensures a % 4 == (a % 8) % 4 && a % 2 == (a % 8) % 2
  {
    var q, r := a / 8, a % 8;
    Remainder(a, 2 * q + r / 4, r % 4, 4);
    Remainder(a, 4 * q + r / 2, r % 2, 2);
  }

  /** The next row within the pass. */
  lemma {:induction false} NextRow(row: nat, step: nat, parse: nat)
    requires InPass(row, step, parse)
    ensures step > 0 && InPass(row + step, step, parse)
    ensures forall a: nat :: Left(a, row + step, step, parse) <==> Left(a, row, step, parse) && a != row
  {
    hide Left;
    NextInPass(row, step, parse);
    forall a: nat ensures Left(a, row + step, step, parse) <==> Left(a, row, step, parse) && a != row {
      RowIsDone(a, row, step, parse);
    }
  }

  lemma {:induction false} NextInPass(row: nat, step: nat, parse: nat)
    requires InPass(row, step, parse)
    ensures step > 0 && InPass(row + step, step, parse)
  {
    if step == 8 { assert (row + 8) % 8 == row % 8; } else if step == 4 { assert (row + 4) % 4 == row % 4; }
    else if step == 2 { assert (row + 2) % 2 == row % 2; }
  }

  lemma {:induction false} RowIsDone(a: nat, row: nat, step: nat, parse: nat)
    requires InPass(row, step, parse)
    ensures step > 0 && (Left(a, row + step, step, parse) <==> Left(a, row, step, parse) && a != row)
  {
    if step == 8 { SkipEight(a, row); } else if step == 4 { SkipFour(a, row); } else if step == 2 { SkipTwo(a, row); }
  }

  lemma {:induction false} SkipEight(a: nat, row: nat)
    ensures (a >= row + 8 && a % 8 == (row + 8) % 8) <==> (a >= row && a % 8 == row % 8 && a != row)
  {
  }

  lemma {:induction false} SkipFour(a: nat, row: nat)
    ensures (a >= row + 4 && a % 4 == (row + 4) % 4) <==> (a >= row && a % 4 == row % 4 && a != row)
  {
  }

  lemma {:induction false} SkipTwo(a: nat, row: nat)
    ensures (a >= row + 2 && a % 2 == (row + 2) % 2) <==> (a >= row && a % 2 == row % 2 && a != row)
  {
  }

  /** At the start every row is left. */
  lemma {:induction false} AllLeft(a: nat, interlaced: bool)
    ensures if interlaced then Left(a, 0, 8, 3) else Left(a, 0, 1, 0)
  {
  }

  /** Two to the power of `parse`: how far apart the rows of the next pass are. */
  function PowerOf(parse: nat): nat { if parse == 3 then 8 else if parse == 2 then 4 else if parse == 1 then 2 else 1 }

  /** The next pass, when this one has left the frame. */
  lemma {:induction false} NextPass(row: nat, step: nat, parse: nat, height: nat)
    requires InPass(row, step, parse) && row >= height && parse > 0
    ensures var s := PowerOf(parse);
      s > 1 && step != 1 && step > 0 && InPass(s / 2, s, parse - 1)
      && forall a: nat :: a < height ==> (Left(a, s / 2, s, parse - 1) <==> Left(a, row, step, parse))
  {
  }

  lemma {:induction false} Over(row: nat, step: nat, parse: nat, height: nat)
    requires InPass(row, step, parse) && row >= height && parse == 0
    ensures forall a: nat :: a < height ==> !Left(a, row, step, parse)
  {
  }

  lemma {:induction false} Rows(a: nat, b: nat, line: nat)
    requires line > 0
    ensures a * line >= b * line <==> a >= b
    ensures (a + b) * line == a * line + b * line
  {
    Scale(if a < b then a + 1 else b, if a < b then b else a, line);
    Distribute(a, 1, line);
    Distribute(a, b, line);
  }

  class Cursor {
    const startX: nat
    const startY: nat
    const maxX: nat
    const maxY: nat
    const lineSize: nat
    var curX: nat
    var curY: nat
    var step: nat
    var parse: nat
    ghost const width: nat
    ghost const height: nat
    ghost const inPasses: bool
    ghost var row: nat
    ghost var col: nat
    ghost var steps: nat
    /** The pixels drawn so far, by row and column. */
    ghost var drawn: set<(nat, nat)>

    /** Where the next pixel goes, in a frame that has some. */
    ghost predicate Shape()
      reads this
    {
      && lineSize > 0 && maxX == startX + 4 * width && maxY == startY + height * lineSize && width > 0
      && curY == startY + row * lineSize && step == steps * lineSize && InPass(row, steps, parse)
      && (inPasses <==> steps != 1)
    }

    ghost predicate Drawing()
      reads this
    {
      && Shape() && curX == startX + 4 * col && (row < height ==> col < width) && (parse > 0 ==> row < height)
      && forall a: nat, b: nat :: (a, b) in drawn <==>
           a < height && b < width && (!Left(a, row, steps, parse) || (a == row && b < col))
    }

    /** A frame without pixels starts below its last line. */
    ghost predicate Valid()
      reads this
    {
      if width == 0 || height == 0 then curY >= maxY && drawn == {} else Drawing()
    }

    /** A frame at (x, y) of an image whose lines take `line` bytes. */
    constructor (x: nat, y: nat, w: nat, h: nat, line: nat, interlaced: bool)
      requires w > 0 ==> line > 0
      ensures Valid() && width == w && height == h && inPasses == interlaced && drawn == {} && row == 0 && col == 0
    {
      startX, startY, maxX, maxY, lineSize := 4 * x, y * line, 4 * x + 4 * w, y * line + h * line, line;
      curX, curY := 4 * x, if w == 0 then y * line + h * line else y * line;
      width, height, inPasses, row, col, drawn := w, h, interlaced, 0, 0, {};
      if interlaced {
        step, parse, steps := 8 * line, 3, 8;
      } else {
        step, parse, steps := line, 0, 1;
      }
      new;
      forall a: nat ensures Left(a, row, steps, parse) { AllLeft(a, interlaced); }
    }

    /** Draws the next pixel, which comes after those drawn so far, unless the frame is full; the index is where it
        goes. */
    method OutPixel() returns (fits: bool, idx: nat)
      requires Valid()
      modifies this
      ensures Valid()
      ensures fits <==> width > 0 && old(row) < height
      ensures fits ==> idx == startX + startY + old(row) * lineSize + 4 * old(col)
      ensures fits ==> (old(row), old(col)) !in old(drawn) && drawn == old(drawn) + {(old(row), old(col))}
      ensures fits ==> forall p <- old(drawn) :: Before(p, (old(row), old(col)), inPasses)
      ensures !fits ==> drawn == old(drawn) && forall a: nat, b: nat :: a < height && b < width ==> (a, b) in drawn
    {
      hide Left, InPass;
      if curY >= maxY {
        if width > 0 && height > 0 { NoneLeft(); }
        return false, 0;
      }
      Rows(row, height, lineSize);
      RowIsLeft(row, steps, parse);
      DrawnBefore();
      idx := curX + curY;
      fits := true;
      curX := curX + 4;
      drawn := drawn + {(row, col)};
      col := col + 1;
      if curX >= maxX {
        NextLine();
      }
    }

    lemma {:induction false} DrawnBefore()
      requires Drawing()
      ensures forall p <- drawn :: Before(p, (row, col), inPasses)
    {
      hide Left, InPass, RowBefore;
      forall p | p in drawn ensures Before(p, (row, col), inPasses) {
        DoneIsBefore(p.0, row, steps, parse);
      }
    }

    /** Below the last line of the last pass everything is drawn. */
    lemma {:induction false} NoneLeft()
      requires Drawing() && curY >= maxY && height > 0
      ensures row >= height && forall a: nat, b: nat :: a < height && b < width ==> (a, b) in drawn
    {
      hide Left, InPass;
      Rows(row, height, lineSize);
      Over(row, steps, parse, height);
    }

    /** The rows left before the row that was just finished. */
    ghost predicate LeftAfter(row0: nat, steps0: nat, parse0: nat)
      requires steps0 > 0 && steps > 0
      reads this
    {
      forall a: nat :: a < height ==> (Left(a, row, steps, parse) <==> Left(a, row0, steps0, parse0) && a != row0)
    }

    /** The finished row and those before it are drawn. */
    ghost predicate DrawnBy(row0: nat, steps0: nat, parse0: nat)
      requires steps0 > 0
      reads this
    {
      forall a: nat, b: nat :: (a, b) in drawn <==> a < height && b < width && (!Left(a, row0, steps0, parse0) || a == row0)
    }

    lemma {:induction false} StillDrawing(row0: nat, steps0: nat, parse0: nat)
      requires Shape() && steps > 0 && steps0 > 0 && LeftAfter(row0, steps0, parse0) && DrawnBy(row0, steps0, parse0)
      requires col == 0 && curX == startX && (parse > 0 ==> row < height)
      ensures Drawing()
    {
      hide Left, InPass;
    }

    /** On to the next row; past the bottom, on to the first row of the next pass that has any. */
    method NextLine()
      requires Shape() && row < height && col == width && steps > 0 && DrawnBy(row, steps, parse)
      modifies this`curX, this`curY, this`step, this`parse, this`row, this`col, this`steps
      ensures Valid()
    {
      hide Left, InPass, PowerOf, LeftAfter;
      ghost var row0, steps0, parse0 := row, steps, parse;
      curX := startX;
      FinishRow();
      while curY >= maxY && parse > 0
        invariant Shape() && col == 0 && curX == startX && (curY >= maxY <==> row >= height)
        invariant steps > 0 && LeftAfter(row0, steps0, parse0) && DrawnBy(row0, steps0, parse0)
        decreases parse
      {
        StartPass(row0, steps0, parse0);
      }
      StillDrawing(row0, steps0, parse0);
    }

    method FinishRow()
      requires Shape() && steps > 0
      modifies this`curY, this`row, this`col
      ensures Shape() && col == 0 && LeftAfter(old(row), steps, parse) && (curY >= maxY <==> row >= height)
    {
      hide Left, InPass;
      NextRow(row, steps, parse);
      Rows(row, steps, lineSize);
      curY := curY + step;
      row, col := row + steps, 0;
      Rows(row, height, lineSize);
    }

    method StartPass(ghost row0: nat, ghost steps0: nat, ghost parse0: nat)
      requires Shape() && parse > 0 && row >= height && steps > 0 && steps0 > 0 && LeftAfter(row0, steps0, parse0)
      modifies this`curY, this`step, this`parse, this`row, this`steps
      ensures Shape() && parse == old(parse) - 1 && (curY >= maxY <==> row >= height)
      ensures steps > 0 && LeftAfter(row0, steps0, parse0)
    {
      hide Left, InPass, PowerOf;
      StepIsPositive(row, steps, parse);
      NextPass(row, steps, parse, height);
      HalfStep(parse, lineSize);
      step := PowerOf(parse) * lineSize;
      curY := startY + step / 2;
      steps := PowerOf(parse);
      row := steps / 2;
      parse := parse - 1;
      Rows(row, height, lineSize);
    }

    /** Draws until the frame is full: exactly as many pixels as were missing. */
    method DrawAll() returns (n: nat)
      requires Valid() && drawn <= Frame(height, width)
      modifies this
      ensures Valid() && drawn == Frame(height, width) && n == |Frame(height, width)| - |old(drawn)|
    {
      ghost var frame := Frame(height, width);
      n := 0;
      var fits := true;
      while fits
        invariant Valid() && drawn <= frame && n == |drawn| - |old(drawn)| && (!fits ==> drawn == frame)
        decreases |frame| - |drawn|, fits
      {
        ghost var before, pixel := drawn, (row, col);
        var idx;
        fits, idx := OutPixel();
        if fits {
          n := n + 1;
          assert drawn == before + {pixel} && |drawn| == |before| + 1;
        } else {
          assert frame <= drawn;
        }
        Subset(drawn, frame);
      }
    }
  }

  ghost function Frame(height: nat, width: nat): set<(nat, nat)> {
    set a: nat, b: nat | a < height && b < width :: (a, b)
  }

  lemma {:induction false} Subset(s: set<(nat, nat)>, t: set<(nat, nat)>)
    requires s <= t
    ensures |s| <= |t|
  {
    assert t == s + (t - s);
  }

  lemma {:induction false} HalfStep(parse: nat, line: nat)
    requires 1 <= parse <= 3
    ensures (PowerOf(parse) * line) / 2 == (PowerOf(parse) / 2) * line
  {
  }

  lemma {:induction false} StepIsPositive(row: nat, step: nat, parse: nat)
    requires InPass(row, step, parse)
    ensures step > 0 && parse <= 3
  {
  }

  /** The current row is one of those left. */
  lemma {:induction false} RowIsLeft(row: nat, step: nat, parse: nat)
    requires InPass(row, step, parse)
    ensures step > 0 && Left(row, row, step, parse)
  {
  }
}
