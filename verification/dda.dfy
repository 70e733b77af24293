/**
 * The Digital Differential Analyzer: `steps = max(|dx|,|dy|)` equal
 * increments from the first endpoint, each accumulated position rounded when
 * it is emitted. Numbers are exact reals here; the source accumulates IEEE
 * doubles, so its positions drift slightly and this model says nothing
 * bit-exact about them.
 */
module Dda {
  import opened Geometry

  /** `xInc = dx / steps` (only read when `steps > 0`). */
  function XInc(x0: int, y0: int, x1: int, y1: int): real
  {
    if DominantSpan(x0, y0, x1, y1) == 0 then 0.0
    else (x1 - x0) as real / DominantSpan(x0, y0, x1, y1) as real
  }

  /** `yInc = dy / steps` (only read when `steps > 0`). */
  function YInc(x0: int, y0: int, x1: int, y1: int): real
  {
    if DominantSpan(x0, y0, x1, y1) == 0 then 0.0
    else (y1 - y0) as real / DominantSpan(x0, y0, x1, y1) as real
  }

  /** The point emitted after `i` increments, with exact accumulation. */
  function DdaPoint(x0: int, y0: int, x1: int, y1: int, i: int): Point
  {
    Point(Round(x0 as real + i as real * XInc(x0, y0, x1, y1)),
          Round(y0 as real + i as real * YInc(x0, y0, x1, y1)))
  }

  /** The result of dda. */
  function DdaLine(x0: int, y0: int, x1: int, y1: int): seq<Point>
  {
    if DominantSpan(x0, y0, x1, y1) == 0 then [Point(x0, y0)]
    else seq(DominantSpan(x0, y0, x1, y1) + 1, i => DdaPoint(x0, y0, x1, y1, i))
  }

  /** The `i`-th point of a non-degenerate dda line. */
  lemma DdaPointAt(x0: int, y0: int, x1: int, y1: int, i: int)
    requires DominantSpan(x0, y0, x1, y1) > 0 && 0 <= i <= DominantSpan(x0, y0, x1, y1)
    ensures |DdaLine(x0, y0, x1, y1)| == DominantSpan(x0, y0, x1, y1) + 1
    ensures DdaLine(x0, y0, x1, y1)[i] == DdaPoint(x0, y0, x1, y1, i)
  {
  }

  /** Both increments are at most one in magnitude. */
  lemma IncrementsBounded(x0: int, y0: int, x1: int, y1: int)
    ensures -1.0 <= XInc(x0, y0, x1, y1) <= 1.0
    ensures -1.0 <= YInc(x0, y0, x1, y1) <= 1.0
  {
    var steps := DominantSpan(x0, y0, x1, y1);
    if steps > 0 {
      RatioBounded(x1 - x0, steps);
      RatioBounded(y1 - y0, steps);
    }
  }

  /** `n` increments of `d/n` add up to exactly `d`. */
  lemma IncrementsSum(d: int, n: int)
    requires n > 0
    ensures n as real * (d as real / n as real) == d as real
  {
  }

  /** The increment along the dominant axis is exactly its unit sign step. */
  lemma DominantIncrement(d: int, n: int)
    requires n > 0 && Abs(d) == n
    ensures d as real / n as real == Sign(d) as real
  {
  }

  /** dda on a single cell returns just that cell. */
  lemma DdaSinglePoint(x0: int, y0: int)
    ensures DdaLine(x0, y0, x0, y0) == [Point(x0, y0)]
  {
  }

  /** Starting at `a`, `n` increments of `d/n` land exactly on `a + d`. */
  lemma LandsOnEndpoint(a: int, d: int, n: int)
    requires n > 0
    ensures Round(a as real + n as real * (d as real / n as real)) == a + d
  {
    IncrementsSum(d, n);
    assert a as real + n as real * (d as real / n as real) == (a + d) as real;
    RoundOfInt(a + d);
  }

  /** After `steps` increments dda is exactly at the far endpoint. */
  lemma DdaLastPoint(x0: int, y0: int, x1: int, y1: int)
    requires DominantSpan(x0, y0, x1, y1) > 0
    ensures DdaPoint(x0, y0, x1, y1, DominantSpan(x0, y0, x1, y1)) == Point(x1, y1)
  {
    var steps := DominantSpan(x0, y0, x1, y1);
    LandsOnEndpoint(x0, x1 - x0, steps);
    LandsOnEndpoint(y0, y1 - y0, steps);
  }

  /**
   * dda emits `steps + 1` points from `(x0,y0)` to `(x1,y1)` inclusive; the
   * last one is the far endpoint because the exact increments add up to the
   * deltas.
   */
  lemma DdaEndpoints(x0: int, y0: int, x1: int, y1: int)
    ensures |DdaLine(x0, y0, x1, y1)| == DominantSpan(x0, y0, x1, y1) + 1
    ensures DdaLine(x0, y0, x1, y1)[0] == Point(x0, y0)
    ensures DdaLine(x0, y0, x1, y1)[DominantSpan(x0, y0, x1, y1)] == Point(x1, y1)
  {
    var steps := DominantSpan(x0, y0, x1, y1);
    if steps > 0 {
      DdaPointAt(x0, y0, x1, y1, 0);
      DdaPointAt(x0, y0, x1, y1, steps);
      assert x0 as real + 0 as real * XInc(x0, y0, x1, y1) == x0 as real;
      assert y0 as real + 0 as real * YInc(x0, y0, x1, y1) == y0 as real;
      RoundOfInt(x0);
      RoundOfInt(y0);
      DdaLastPoint(x0, y0, x1, y1);
    }
  }

  /**
   * Along the dominant axis dda moves by exactly one unit step per point:
   * its `i`-th point has that coordinate `x0 + i*sign(dx)` (or the same in y).
   */
  lemma DdaDominantCoordinate(x0: int, y0: int, x1: int, y1: int, i: int)
    requires DominantSpan(x0, y0, x1, y1) > 0 && 0 <= i <= DominantSpan(x0, y0, x1, y1)
    ensures Abs(x1 - x0) >= Abs(y1 - y0) ==> DdaPoint(x0, y0, x1, y1, i).x == x0 + i * Sign(x1 - x0)
    ensures Abs(x1 - x0) < Abs(y1 - y0) ==> DdaPoint(x0, y0, x1, y1, i).y == y0 + i * Sign(y1 - y0)
  {
    var steps := DominantSpan(x0, y0, x1, y1);
    if Abs(x1 - x0) >= Abs(y1 - y0) {
      DominantIncrement(x1 - x0, steps);
      var s := Sign(x1 - x0);
      assert x0 as real + i as real * s as real == (x0 + i * s) as real;
      RoundOfInt(x0 + i * s);
    } else {
      DominantIncrement(y1 - y0, steps);
      var s := Sign(y1 - y0);
      assert y0 as real + i as real * s as real == (y0 + i * s) as real;
      RoundOfInt(y0 + i * s);
    }
  }

  /** One increment moves each rounded coordinate by at most one. */
  lemma DdaStepX(x0: int, y0: int, x1: int, y1: int, i: int)
    requires DominantSpan(x0, y0, x1, y1) > 0
    ensures -1 <= DdaPoint(x0, y0, x1, y1, i + 1).x - DdaPoint(x0, y0, x1, y1, i).x <= 1
  {
    var inc := XInc(x0, y0, x1, y1);
    IncrementsBounded(x0, y0, x1, y1);
    assert DdaPoint(x0, y0, x1, y1, i).x == Round(x0 as real + i as real * inc);
    assert DdaPoint(x0, y0, x1, y1, i + 1).x == Round(x0 as real + (i + 1) as real * inc);
    RoundedAccumulationStep(x0 as real, i, inc);
  }

  lemma DdaStepY(x0: int, y0: int, x1: int, y1: int, i: int)
    requires DominantSpan(x0, y0, x1, y1) > 0
    ensures -1 <= DdaPoint(x0, y0, x1, y1, i + 1).y - DdaPoint(x0, y0, x1, y1, i).y <= 1
  {
    var inc := YInc(x0, y0, x1, y1);
    IncrementsBounded(x0, y0, x1, y1);
    assert DdaPoint(x0, y0, x1, y1, i).y == Round(y0 as real + i as real * inc);
    assert DdaPoint(x0, y0, x1, y1, i + 1).y == Round(y0 as real + (i + 1) as real * inc);
    RoundedAccumulationStep(y0 as real, i, inc);
  }

  /** One increment moves each rounded coordinate by at most one, and the dominant one by exactly one. */
  lemma DdaStep(x0: int, y0: int, x1: int, y1: int, i: int)
    requires DominantSpan(x0, y0, x1, y1) > 0 && 0 <= i < DominantSpan(x0, y0, x1, y1)
    ensures Adjacent(DdaPoint(x0, y0, x1, y1, i), DdaPoint(x0, y0, x1, y1, i + 1))
  {
    DdaStepX(x0, y0, x1, y1, i);
    DdaStepY(x0, y0, x1, y1, i);
    DdaDominantCoordinate(x0, y0, x1, y1, i);
    DdaDominantCoordinate(x0, y0, x1, y1, i + 1);
    var sx, sy := Sign(x1 - x0), Sign(y1 - y0);
    assert (i + 1) * sx == i * sx + sx;
    assert (i + 1) * sy == i * sy + sy;
  }

  /** Consecutive dda points are 8-neighbours: the line has no gap and no stutter. */
  lemma DdaConnected(x0: int, y0: int, x1: int, y1: int)
    ensures Connected(DdaLine(x0, y0, x1, y1))
  {
    var s := DdaLine(x0, y0, x1, y1);
    if DominantSpan(x0, y0, x1, y1) > 0 {
      forall i | 0 <= i < |s| - 1 ensures Adjacent(s[i], s[i + 1]) {
        DdaPointAt(x0, y0, x1, y1, i);
        DdaPointAt(x0, y0, x1, y1, i + 1);
        DdaStep(x0, y0, x1, y1, i);
      }
    }
  }

  /** dda never emits a point twice: its dominant coordinate strictly advances. */
  lemma DdaDistinct(x0: int, y0: int, x1: int, y1: int)
    ensures Distinct(DdaLine(x0, y0, x1, y1))
  {
    var s := DdaLine(x0, y0, x1, y1);
    if DominantSpan(x0, y0, x1, y1) > 0 {
      forall i, j | 0 <= i < j < |s| ensures s[i] != s[j] {
        DdaPointAt(x0, y0, x1, y1, i);
        DdaPointAt(x0, y0, x1, y1, j);
        DdaDominantCoordinate(x0, y0, x1, y1, i);
        DdaDominantCoordinate(x0, y0, x1, y1, j);
        if Abs(x1 - x0) >= Abs(y1 - y0) {
          assert Sign(x1 - x0) != 0;
          assert i * Sign(x1 - x0) != j * Sign(x1 - x0);
        } else {
          assert Sign(y1 - y0) != 0;
          assert i * Sign(y1 - y0) != j * Sign(y1 - y0);
        }
      }
    }
  }

  lemma DdaPointFormula(x0: int, y0: int, x1: int, y1: int, i: int, x: real, y: real,
                        xInc: real, yInc: real)
    requires DominantSpan(x0, y0, x1, y1) > 0
    requires xInc == (x1 - x0) as real / DominantSpan(x0, y0, x1, y1) as real
    requires yInc == (y1 - y0) as real / DominantSpan(x0, y0, x1, y1) as real
    requires x == x0 as real + i as real * xInc && y == y0 as real + i as real * yInc
    ensures Point(Round(x), Round(y)) == DdaPoint(x0, y0, x1, y1, i)
    ensures x + xInc == x0 as real + (i + 1) as real * xInc
    ensures y + yInc == y0 as real + (i + 1) as real * yInc
  {
  }

  lemma DdaLineFromPoints(x0: int, y0: int, x1: int, y1: int, s: seq<Point>)
    requires DominantSpan(x0, y0, x1, y1) > 0 && |s| == DominantSpan(x0, y0, x1, y1) + 1
    requires forall k :: 0 <= k < |s| ==> s[k] == DdaPoint(x0, y0, x1, y1, k)
    ensures s == DdaLine(x0, y0, x1, y1)
  {
  }

  /** `dda`: accumulate the increments, rounding each position as it is emitted. */
  method Dda(x0: int, y0: int, x1: int, y1: int) returns (pts: seq<Point>)
    ensures pts == DdaLine(x0, y0, x1, y1)
    ensures |pts| == DominantSpan(x0, y0, x1, y1) + 1
    ensures pts[0] == Point(x0, y0) && pts[|pts| - 1] == Point(x1, y1)
  {
    pts := [];
    var dx := x1 - x0;
    var dy := y1 - y0;
    var steps := Max(Abs(dx), Abs(dy));
    if steps == 0 {
      // both endpoints coincide: one cell
      pts := pts + [Point(x0, y0)];
      return;
    }
    var xInc := dx as real / steps as real;
    var yInc := dy as real / steps as real;
    var x := x0 as real;
    var y := y0 as real;
    for i := 0 to steps + 1
      invariant |pts| == i
      invariant x == x0 as real + i as real * xInc && y == y0 as real + i as real * yInc
      invariant forall k :: 0 <= k < i ==> pts[k] == DdaPoint(x0, y0, x1, y1, k)
    {
      DdaPointFormula(x0, y0, x1, y1, i, x, y, xInc, yInc);
      pts := pts + [Point(Round(x), Round(y))];
      x := x + xInc;
      y := y + yInc;
    }
    DdaLineFromPoints(x0, y0, x1, y1, pts);
    DdaEndpoints(x0, y0, x1, y1);
  }
}
