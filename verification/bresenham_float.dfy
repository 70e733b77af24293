/**
 * `bresenhamFloat`: step one unit at a time along the dominant axis and
 * accumulate the other coordinate by the slope, rounding it only when the
 * point is emitted; stop when the dominant coordinate equals the endpoint's.
 * Numbers are exact reals here, so the accumulated coordinate never drifts.
 */
module BresenhamFloat {
  import opened Geometry
  import Dda

  /** The point emitted after `i` unit steps along x (`x += sx; y += m*sx`). */
  function ColumnPoint(x0: int, y0: int, x1: int, y1: int, i: int): Point
  {
    var sx := Sign(x1 - x0);
    Point(x0 + i * sx, Round(y0 as real + i as real * (Slope(x0, y0, x1, y1) * sx as real)))
  }

  /** The point emitted after `i` unit steps along y (`y += sy; x += mInv*sy`). */
  function RowPoint(x0: int, y0: int, x1: int, y1: int, i: int): Point
  {
    var sy := Sign(y1 - y0);
    Point(Round(x0 as real + i as real * (InverseSlope(x0, y0, x1, y1) * sy as real)), y0 + i * sy)
  }

  /** The result of bresenhamFloat. */
  function BresenhamFloatLine(x0: int, y0: int, x1: int, y1: int): seq<Point>
  {
    var absDx, absDy := Abs(x1 - x0), Abs(y1 - y0);
    if absDx == 0 && absDy == 0 then [Point(x0, y0)]
    else if absDx >= absDy then seq(absDx + 1, i => ColumnPoint(x0, y0, x1, y1, i))
    else seq(absDy + 1, i => RowPoint(x0, y0, x1, y1, i))
  }

  /** The `i`-th point of a non-degenerate line. */
  lemma PointAt(x0: int, y0: int, x1: int, y1: int, i: int)
    requires (x0, y0) != (x1, y1) && 0 <= i <= Max(Abs(x1 - x0), Abs(y1 - y0))
    ensures |BresenhamFloatLine(x0, y0, x1, y1)| == Max(Abs(x1 - x0), Abs(y1 - y0)) + 1
    ensures BresenhamFloatLine(x0, y0, x1, y1)[i] ==
      if Abs(x1 - x0) >= Abs(y1 - y0) then ColumnPoint(x0, y0, x1, y1, i)
      else RowPoint(x0, y0, x1, y1, i)
  {
  }

  /** `i` unit steps toward `d` reach `d` exactly when `i = |d|`. */
  lemma UnitSteps(d: int, i: int)
    requires 0 <= i <= Abs(d)
    ensures (i * Sign(d) == d) <==> (i == Abs(d))
  {
    if d > 0 {
      assert i * Sign(d) == i;
    } else if d < 0 {
      assert i * Sign(d) == -i;
    }
  }

  /** bresenhamFloat on a single cell returns just that cell. */
  lemma BresenhamFloatSinglePoint(x0: int, y0: int)
    ensures BresenhamFloatLine(x0, y0, x0, y0) == [Point(x0, y0)]
  {
  }

  /**
   * The dominant coordinate moves by the unit sign step at every point and
   * ends exactly on the endpoint's: `|d| + 1` points, the `i`-th one `i`
   * steps from the start.
   */
  lemma BresenhamFloatWalk(x0: int, y0: int, x1: int, y1: int)
    ensures |BresenhamFloatLine(x0, y0, x1, y1)| == Max(Abs(x1 - x0), Abs(y1 - y0)) + 1
    ensures var s := BresenhamFloatLine(x0, y0, x1, y1);
      Abs(x1 - x0) >= Abs(y1 - y0) ==>
        (forall i :: 0 <= i < |s| ==> s[i].x == x0 + i * Sign(x1 - x0)) && s[|s| - 1].x == x1
    ensures var s := BresenhamFloatLine(x0, y0, x1, y1);
      Abs(x1 - x0) < Abs(y1 - y0) ==>
        (forall i :: 0 <= i < |s| ==> s[i].y == y0 + i * Sign(y1 - y0)) && s[|s| - 1].y == y1
  {
    var s := BresenhamFloatLine(x0, y0, x1, y1);
    if (x0, y0) != (x1, y1) {
      PointAt(x0, y0, x1, y1, 0);
      forall i | 0 <= i < |s|
        ensures Abs(x1 - x0) >= Abs(y1 - y0) ==> s[i].x == x0 + i * Sign(x1 - x0)
        ensures Abs(x1 - x0) < Abs(y1 - y0) ==> s[i].y == y0 + i * Sign(y1 - y0)
      {
        PointAt(x0, y0, x1, y1, i);
      }
      if Abs(x1 - x0) >= Abs(y1 - y0) {
        UnitSteps(x1 - x0, |s| - 1);
      } else {
        UnitSteps(y1 - y0, |s| - 1);
      }
    }
  }

  /** `(dy/dx) * sign(dx)` is `dy/|dx|`. */
  lemma SlopeTimesSign(d: int, e: int)
    requires d != 0
    ensures (e as real / d as real) * Sign(d) as real == e as real / Abs(d) as real
  {
    if d < 0 {
      assert (e as real / d as real) * -1.0 == e as real / (-d) as real;
    }
  }

  lemma ColumnPointIsDdaPoint(x0: int, y0: int, x1: int, y1: int, i: int)
    requires Abs(x1 - x0) >= Abs(y1 - y0) && x1 != x0
    ensures ColumnPoint(x0, y0, x1, y1, i) == Dda.DdaPoint(x0, y0, x1, y1, i)
  {
    var steps := DominantSpan(x0, y0, x1, y1);
    var sx := Sign(x1 - x0);
    assert steps == Abs(x1 - x0);
    Dda.DominantIncrement(x1 - x0, steps);
    assert x0 as real + i as real * Dda.XInc(x0, y0, x1, y1) == (x0 + i * sx) as real;
    RoundOfInt(x0 + i * sx);
    SlopeTimesSign(x1 - x0, y1 - y0);
    assert Slope(x0, y0, x1, y1) * sx as real == Dda.YInc(x0, y0, x1, y1);
  }

  lemma RowPointIsDdaPoint(x0: int, y0: int, x1: int, y1: int, i: int)
    requires Abs(x1 - x0) < Abs(y1 - y0)
    ensures RowPoint(x0, y0, x1, y1, i) == Dda.DdaPoint(x0, y0, x1, y1, i)
  {
    var steps := DominantSpan(x0, y0, x1, y1);
    var sy := Sign(y1 - y0);
    assert steps == Abs(y1 - y0);
    Dda.DominantIncrement(y1 - y0, steps);
    assert y0 as real + i as real * Dda.YInc(x0, y0, x1, y1) == (y0 + i * sy) as real;
    RoundOfInt(y0 + i * sy);
    SlopeTimesSign(y1 - y0, x1 - x0);
    assert InverseSlope(x0, y0, x1, y1) * sy as real == Dda.XInc(x0, y0, x1, y1);
  }

  /**
   * In exact arithmetic bresenhamFloat and dda draw the same line: along the
   * dominant axis dda's increment is the unit sign step, and along the other
   * it is the slope times that step.
   */
  lemma BresenhamFloatMatchesDda(x0: int, y0: int, x1: int, y1: int)
    ensures BresenhamFloatLine(x0, y0, x1, y1) == Dda.DdaLine(x0, y0, x1, y1)
  {
    if (x0, y0) != (x1, y1) {
      var s, t := BresenhamFloatLine(x0, y0, x1, y1), Dda.DdaLine(x0, y0, x1, y1);
      PointAt(x0, y0, x1, y1, 0);
      Dda.DdaPointAt(x0, y0, x1, y1, 0);
      forall i | 0 <= i < |s| ensures s[i] == t[i] {
        PointAt(x0, y0, x1, y1, i);
        Dda.DdaPointAt(x0, y0, x1, y1, i);
        if Abs(x1 - x0) >= Abs(y1 - y0) {
          ColumnPointIsDdaPoint(x0, y0, x1, y1, i);
        } else {
          RowPointIsDdaPoint(x0, y0, x1, y1, i);
        }
      }
    }
  }

  /** bresenhamFloat runs from `(x0,y0)` to `(x1,y1)`, gap-free and without repeats. */
  lemma BresenhamFloatSimplePath(x0: int, y0: int, x1: int, y1: int)
    ensures var s := BresenhamFloatLine(x0, y0, x1, y1);
      s[0] == Point(x0, y0) && s[|s| - 1] == Point(x1, y1) && Connected(s) && Distinct(s)
  {
    BresenhamFloatMatchesDda(x0, y0, x1, y1);
    Dda.DdaEndpoints(x0, y0, x1, y1);
    Dda.DdaConnected(x0, y0, x1, y1);
    Dda.DdaDistinct(x0, y0, x1, y1);
  }

  /** `start + i*step` on the integer axis. */
  function Walked(start: int, step: int, i: int): int
  {
    start + i * step
  }

  /** `start + i*inc` on the real axis. */
  function Accumulated(start: int, inc: real, i: int): real
  {
    start as real + i as real * inc
  }

  lemma ColumnFormula(x0: int, y0: int, x1: int, y1: int, i: int, m: real, sx: int)
    requires sx == Sign(x1 - x0) && m == Slope(x0, y0, x1, y1)
    ensures Point(Walked(x0, sx, i), Round(Accumulated(y0, m * sx as real, i))) == ColumnPoint(x0, y0, x1, y1, i)
    ensures Walked(x0, sx, i) + sx == Walked(x0, sx, i + 1)
    ensures Accumulated(y0, m * sx as real, i) + m * sx as real == Accumulated(y0, m * sx as real, i + 1)
  {
  }

  lemma RowFormula(x0: int, y0: int, x1: int, y1: int, i: int, mInv: real, sy: int)
    requires sy == Sign(y1 - y0) && mInv == InverseSlope(x0, y0, x1, y1)
    ensures Point(Round(Accumulated(x0, mInv * sy as real, i)), Walked(y0, sy, i)) == RowPoint(x0, y0, x1, y1, i)
    ensures Walked(y0, sy, i) + sy == Walked(y0, sy, i + 1)
    ensures Accumulated(x0, mInv * sy as real, i) + mInv * sy as real == Accumulated(x0, mInv * sy as real, i + 1)
  {
  }

  lemma LineFromPoints(x0: int, y0: int, x1: int, y1: int, s: seq<Point>)
    requires (x0, y0) != (x1, y1) && |s| == Max(Abs(x1 - x0), Abs(y1 - y0)) + 1
    requires Abs(x1 - x0) >= Abs(y1 - y0) ==>
      forall k :: 0 <= k < |s| ==> s[k] == ColumnPoint(x0, y0, x1, y1, k)
    requires Abs(x1 - x0) < Abs(y1 - y0) ==>
      forall k :: 0 <= k < |s| ==> s[k] == RowPoint(x0, y0, x1, y1, k)
    ensures s == BresenhamFloatLine(x0, y0, x1, y1)
  {
  }

  /** `bresenhamFloat`: unit steps along the dominant axis, real accumulation along the other. */
  method BresenhamFloat(x0: int, y0: int, x1: int, y1: int) returns (pts: seq<Point>)
    ensures pts == BresenhamFloatLine(x0, y0, x1, y1)
    ensures |pts| == Max(Abs(x1 - x0), Abs(y1 - y0)) + 1
    ensures pts[0] == Point(x0, y0) && pts[|pts| - 1] == Point(x1, y1)
  {
    pts := [];
    var dx := x1 - x0;
    var dy := y1 - y0;
    var absDx := Abs(dx);
    var absDy := Abs(dy);
    var sx := if dx == 0 then 0 else if dx > 0 then 1 else -1;
    var sy := if dy == 0 then 0 else if dy > 0 then 1 else -1;

    if absDx == 0 && absDy == 0 {
      pts := pts + [Point(x0, y0)];
      return;
    }

    if absDx >= absDy {
      // x leads; y is the exact running value, rounded per point
      var m := if dx == 0 then 0.0 else dy as real / dx as real;
      var x := x0;
      var y := y0 as real;
      ghost var i := 0;
      while true
        invariant 0 <= i <= absDx && |pts| == i
        invariant x == Walked(x0, sx, i) && y == Accumulated(y0, m * sx as real, i)
        invariant forall k :: 0 <= k < i ==> pts[k] == ColumnPoint(x0, y0, x1, y1, k)
        decreases absDx - i
      {
        ColumnFormula(x0, y0, x1, y1, i, m, sx);
        UnitSteps(dx, i);
        pts := pts + [Point(x, Round(y))];
        if x == x1 { break; }
        x := x + sx;
        y := y + m * sx as real;
        i := i + 1;
      }
    } else {
      // y leads; x is the exact running value, rounded per point
      var mInv := if dy == 0 then 0.0 else dx as real / dy as real;
      var x := x0 as real;
      var y := y0;
      ghost var i := 0;
      while true
        invariant 0 <= i <= absDy && |pts| == i
        invariant y == Walked(y0, sy, i) && x == Accumulated(x0, mInv * sy as real, i)
        invariant forall k :: 0 <= k < i ==> pts[k] == RowPoint(x0, y0, x1, y1, k)
        decreases absDy - i
      {
        RowFormula(x0, y0, x1, y1, i, mInv, sy);
        UnitSteps(dy, i);
        pts := pts + [Point(Round(x), y)];
        if y == y1 { break; }
        y := y + sy;
        x := x + mInv * sy as real;
        i := i + 1;
      }
    }
    LineFromPoints(x0, y0, x1, y1, pts);
    BresenhamFloatSimplePath(x0, y0, x1, y1);
  }
}
