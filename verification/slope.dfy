/**
 * The two slope-intercept rasterisers, `slopeBasic` and `slopeModified`.
 * Both walk the dominant axis (the one with the larger absolute delta) from
 * its smaller to its larger endpoint and round the other coordinate.
 * Numbers are exact reals here; the source uses IEEE doubles.
 */
module SlopeLines {
  import opened Geometry

  /** Whether x is the dominant axis: `Math.abs(dx) >= Math.abs(dy)`. */
  predicate XDominant(x0: int, y0: int, x1: int, y1: int)
  {
    Abs(x1 - x0) >= Abs(y1 - y0)
  }

  /** The point the steep branch (shared by both variants) emits for row `y`. */
  function RowPoint(x0: int, y0: int, x1: int, y1: int, y: int): Point
  {
    Point(Round(x0 as real + InverseSlope(x0, y0, x1, y1) * (y - y0) as real), y)
  }

  /** The point slopeBasic emits for column `x`: `y = round(m*x + b)` with `b = y0 - m*x0`. */
  function BasicColumnPoint(x0: int, y0: int, x1: int, y1: int, x: int): Point
  {
    var m := Slope(x0, y0, x1, y1);
    var b := y0 as real - m * x0 as real;
    Point(x, Round(m * x as real + b))
  }

  /** The point slopeModified emits for column `x`: `y = round(y0 + m*(x - x0))`. */
  function ModifiedColumnPoint(x0: int, y0: int, x1: int, y1: int, x: int): Point
  {
    Point(x, Round(y0 as real + Slope(x0, y0, x1, y1) * (x - x0) as real))
  }

  /** The points slopeBasic pushes before it filters out repeats. */
  function BasicSamples(x0: int, y0: int, x1: int, y1: int): seq<Point>
  {
    if XDominant(x0, y0, x1, y1) then
      var lo := Min(x0, x1);
      seq(Max(x0, x1) - lo + 1, i => BasicColumnPoint(x0, y0, x1, y1, lo + i))
    else
      var lo := Min(y0, y1);
      seq(Max(y0, y1) - lo + 1, i => RowPoint(x0, y0, x1, y1, lo + i))
  }

  /** The result of slopeBasic. */
  function SlopeBasicLine(x0: int, y0: int, x1: int, y1: int): seq<Point>
  {
    if x1 - x0 == 0 && y1 - y0 == 0 then [Point(x0, y0)]
    else Dedup(BasicSamples(x0, y0, x1, y1))
  }

  /** The result of slopeModified: its samples, unfiltered. */
  function SlopeModifiedLine(x0: int, y0: int, x1: int, y1: int): seq<Point>
  {
    if XDominant(x0, y0, x1, y1) then
      var lo := Min(x0, x1);
      seq(Max(x0, x1) - lo + 1, i => ModifiedColumnPoint(x0, y0, x1, y1, lo + i))
    else
      var lo := Min(y0, y1);
      seq(Max(y0, y1) - lo + 1, i => RowPoint(x0, y0, x1, y1, lo + i))
  }

  /**
   * The dominant coordinate of the `i`-th point: exactly one point per
   * integer from the smaller to the larger endpoint, ascending.
   */
  predicate WalksDominantAxis(x0: int, y0: int, x1: int, y1: int, s: seq<Point>)
  {
    && |s| == DominantSpan(x0, y0, x1, y1) + 1
    && (XDominant(x0, y0, x1, y1) ==>
          forall i :: 0 <= i < |s| ==> s[i].x == Min(x0, x1) + i)
    && (!XDominant(x0, y0, x1, y1) ==>
          forall i :: 0 <= i < |s| ==> s[i].y == Min(y0, y1) + i)
  }

  /** A list that advances one by one along an axis never repeats a point. */
  lemma WalkIsDistinct(x0: int, y0: int, x1: int, y1: int, s: seq<Point>)
    requires WalksDominantAxis(x0, y0, x1, y1, s)
    ensures Distinct(s)
  {
    forall i, j | 0 <= i < j < |s| ensures s[i] != s[j] {
      if XDominant(x0, y0, x1, y1) {
        assert s[i].x != s[j].x;
      } else {
        assert s[i].y != s[j].y;
      }
    }
  }

  /** The `i`-th sample of slopeBasic. */
  lemma BasicSampleAt(x0: int, y0: int, x1: int, y1: int, i: int)
    requires 0 <= i <= DominantSpan(x0, y0, x1, y1)
    ensures |BasicSamples(x0, y0, x1, y1)| == DominantSpan(x0, y0, x1, y1) + 1
    ensures BasicSamples(x0, y0, x1, y1)[i] ==
      if XDominant(x0, y0, x1, y1) then BasicColumnPoint(x0, y0, x1, y1, Min(x0, x1) + i)
      else RowPoint(x0, y0, x1, y1, Min(y0, y1) + i)
  {
  }

  /** The `i`-th point of slopeModified. */
  lemma ModifiedPointAt(x0: int, y0: int, x1: int, y1: int, i: int)
    requires 0 <= i <= DominantSpan(x0, y0, x1, y1)
    ensures |SlopeModifiedLine(x0, y0, x1, y1)| == DominantSpan(x0, y0, x1, y1) + 1
    ensures SlopeModifiedLine(x0, y0, x1, y1)[i] ==
      if XDominant(x0, y0, x1, y1) then ModifiedColumnPoint(x0, y0, x1, y1, Min(x0, x1) + i)
      else RowPoint(x0, y0, x1, y1, Min(y0, y1) + i)
  {
  }

  /** A list of one column point per `x` from `min(x0,x1)` up is slopeBasic's samples. */
  lemma BasicSamplesFromColumns(x0: int, y0: int, x1: int, y1: int, s: seq<Point>)
    requires XDominant(x0, y0, x1, y1) && |s| == Max(x0, x1) - Min(x0, x1) + 1
    requires forall k :: 0 <= k < |s| ==> s[k] == BasicColumnPoint(x0, y0, x1, y1, Min(x0, x1) + k)
    ensures s == BasicSamples(x0, y0, x1, y1)
  {
  }

  /** A list of one row point per `y` from `min(y0,y1)` up is slopeBasic's samples. */
  lemma BasicSamplesFromRows(x0: int, y0: int, x1: int, y1: int, s: seq<Point>)
    requires !XDominant(x0, y0, x1, y1) && |s| == Max(y0, y1) - Min(y0, y1) + 1
    requires forall k :: 0 <= k < |s| ==> s[k] == RowPoint(x0, y0, x1, y1, Min(y0, y1) + k)
    ensures s == BasicSamples(x0, y0, x1, y1)
  {
  }

  /** A list of one column point per `x` from `min(x0,x1)` up is slopeModified's line. */
  lemma ModifiedLineFromColumns(x0: int, y0: int, x1: int, y1: int, s: seq<Point>)
    requires XDominant(x0, y0, x1, y1) && |s| == Max(x0, x1) - Min(x0, x1) + 1
    requires forall k :: 0 <= k < |s| ==> s[k] == ModifiedColumnPoint(x0, y0, x1, y1, Min(x0, x1) + k)
    ensures s == SlopeModifiedLine(x0, y0, x1, y1)
  {
  }

  /** A list of one row point per `y` from `min(y0,y1)` up is slopeModified's line. */
  lemma ModifiedLineFromRows(x0: int, y0: int, x1: int, y1: int, s: seq<Point>)
    requires !XDominant(x0, y0, x1, y1) && |s| == Max(y0, y1) - Min(y0, y1) + 1
    requires forall k :: 0 <= k < |s| ==> s[k] == RowPoint(x0, y0, x1, y1, Min(y0, y1) + k)
    ensures s == SlopeModifiedLine(x0, y0, x1, y1)
  {
  }

  /** The samples of both variants walk the dominant axis. */
  lemma SamplesWalkDominantAxis(x0: int, y0: int, x1: int, y1: int)
    ensures WalksDominantAxis(x0, y0, x1, y1, BasicSamples(x0, y0, x1, y1))
    ensures WalksDominantAxis(x0, y0, x1, y1, SlopeModifiedLine(x0, y0, x1, y1))
  {
    var n := DominantSpan(x0, y0, x1, y1);
    BasicSampleAt(x0, y0, x1, y1, 0);
    ModifiedPointAt(x0, y0, x1, y1, 0);
    forall i | 0 <= i <= n
      ensures BasicSamples(x0, y0, x1, y1)[i].x == Min(x0, x1) + i || !XDominant(x0, y0, x1, y1)
      ensures BasicSamples(x0, y0, x1, y1)[i].y == Min(y0, y1) + i || XDominant(x0, y0, x1, y1)
      ensures SlopeModifiedLine(x0, y0, x1, y1)[i].x == Min(x0, x1) + i || !XDominant(x0, y0, x1, y1)
      ensures SlopeModifiedLine(x0, y0, x1, y1)[i].y == Min(y0, y1) + i || XDominant(x0, y0, x1, y1)
    {
      BasicSampleAt(x0, y0, x1, y1, i);
      ModifiedPointAt(x0, y0, x1, y1, i);
    }
  }

  /**
   * slopeBasic's filter never removes anything: the dominant coordinates of
   * its samples already differ, so its line is its samples.
   */
  lemma SlopeBasicFilterKeepsAll(x0: int, y0: int, x1: int, y1: int)
    ensures SlopeBasicLine(x0, y0, x1, y1) == BasicSamples(x0, y0, x1, y1)
  {
    var s := BasicSamples(x0, y0, x1, y1);
    SamplesWalkDominantAxis(x0, y0, x1, y1);
    WalkIsDistinct(x0, y0, x1, y1, s);
    DedupOfDistinct(s);
    if x1 - x0 == 0 && y1 - y0 == 0 {
      BasicSampleAt(x0, y0, x1, y1, 0);
      assert Slope(x0, y0, x1, y1) == 0.0;
      assert 0.0 * x0 as real + (y0 as real - 0.0 * x0 as real) == y0 as real;
      RoundOfInt(y0);
    }
  }

  /** slopeBasic on a single cell returns just that cell. */
  lemma SlopeBasicSinglePoint(x0: int, y0: int)
    ensures SlopeBasicLine(x0, y0, x0, y0) == [Point(x0, y0)]
  {
  }

  /**
   * slopeBasic emits one point per integer of the dominant axis, ascending,
   * `max(|dx|,|dy|) + 1` of them, and none twice.
   */
  lemma SlopeBasicWalk(x0: int, y0: int, x1: int, y1: int)
    ensures WalksDominantAxis(x0, y0, x1, y1, SlopeBasicLine(x0, y0, x1, y1))
    ensures Distinct(SlopeBasicLine(x0, y0, x1, y1))
  {
    SlopeBasicFilterKeepsAll(x0, y0, x1, y1);
    SamplesWalkDominantAxis(x0, y0, x1, y1);
    DedupDistinct(BasicSamples(x0, y0, x1, y1));
  }

  /**
   * slopeModified emits one point per integer of the dominant axis, ascending,
   * and so never repeats a point, steep lines included.
   */
  lemma SlopeModifiedWalk(x0: int, y0: int, x1: int, y1: int)
    ensures WalksDominantAxis(x0, y0, x1, y1, SlopeModifiedLine(x0, y0, x1, y1))
    ensures Distinct(SlopeModifiedLine(x0, y0, x1, y1))
  {
    SamplesWalkDominantAxis(x0, y0, x1, y1);
    WalkIsDistinct(x0, y0, x1, y1, SlopeModifiedLine(x0, y0, x1, y1));
  }

  /** slopeModified on a single cell returns just that cell. */
  lemma SlopeModifiedSinglePoint(x0: int, y0: int)
    ensures SlopeModifiedLine(x0, y0, x0, y0) == [Point(x0, y0)]
  {
    ModifiedPointAt(x0, y0, x0, y0, 0);
    assert y0 as real + Slope(x0, y0, x0, y0) * (x0 - x0) as real == y0 as real;
    RoundOfInt(y0);
  }

  /** The columns of the two endpoints are emitted as the endpoints themselves. */
  lemma EndpointColumns(x0: int, y0: int, x1: int, y1: int)
    requires x1 != x0
    ensures ModifiedColumnPoint(x0, y0, x1, y1, x0) == Point(x0, y0)
    ensures ModifiedColumnPoint(x0, y0, x1, y1, x1) == Point(x1, y1)
  {
    var m := Slope(x0, y0, x1, y1);
    assert y0 as real + m * (x0 - x0) as real == y0 as real;
    assert y0 as real + m * (x1 - x0) as real == y1 as real;
    RoundOfInt(y0);
    RoundOfInt(y1);
  }

  /** The rows of the two endpoints are emitted as the endpoints themselves. */
  lemma EndpointRows(x0: int, y0: int, x1: int, y1: int)
    requires y1 != y0
    ensures RowPoint(x0, y0, x1, y1, y0) == Point(x0, y0)
    ensures RowPoint(x0, y0, x1, y1, y1) == Point(x1, y1)
  {
    var mInv := InverseSlope(x0, y0, x1, y1);
    assert x0 as real + mInv * (y0 - y0) as real == x0 as real;
    assert x0 as real + mInv * (y1 - y0) as real == x1 as real;
    RoundOfInt(x0);
    RoundOfInt(x1);
  }

  /**
   * Both slope lines start and end on the two endpoints: the first point is
   * the endpoint with the smaller dominant coordinate, the last the other.
   */
  lemma SlopeLinesEndpoints(x0: int, y0: int, x1: int, y1: int)
    ensures var s := SlopeModifiedLine(x0, y0, x1, y1);
      {s[0], s[|s| - 1]} == {Point(x0, y0), Point(x1, y1)}
    ensures var s := SlopeBasicLine(x0, y0, x1, y1);
      {s[0], s[|s| - 1]} == {Point(x0, y0), Point(x1, y1)}
  {
    var s := SlopeModifiedLine(x0, y0, x1, y1);
    var n := DominantSpan(x0, y0, x1, y1);
    ModifiedPointAt(x0, y0, x1, y1, 0);
    ModifiedPointAt(x0, y0, x1, y1, n);
    if x0 == x1 && y0 == y1 {
      SlopeModifiedSinglePoint(x0, y0);
    } else if XDominant(x0, y0, x1, y1) {
      EndpointColumns(x0, y0, x1, y1);
    } else {
      EndpointRows(x0, y0, x1, y1);
    }
    SlopeVariantsAgree(x0, y0, x1, y1);
  }

  /** `m*x + b` with `b = y0 - m*x0` is `y0 + m*(x - x0)`. */
  lemma ColumnPointsAgree(x0: int, y0: int, x1: int, y1: int, x: int)
    ensures BasicColumnPoint(x0, y0, x1, y1, x) == ModifiedColumnPoint(x0, y0, x1, y1, x)
  {
    var m := Slope(x0, y0, x1, y1);
    assert (x - x0) as real == x as real - x0 as real;
    assert m * x as real + (y0 as real - m * x0 as real)
        == y0 as real + m * (x as real - x0 as real);
  }

  /**
   * In exact arithmetic the two variants draw the same line: `m*x + b` and
   * `y0 + m*(x - x0)` are the same number, and the filter of slopeBasic
   * removes nothing. They differ only through floating-point rounding.
   */
  lemma SlopeVariantsAgree(x0: int, y0: int, x1: int, y1: int)
    ensures SlopeBasicLine(x0, y0, x1, y1) == SlopeModifiedLine(x0, y0, x1, y1)
  {
    SlopeBasicFilterKeepsAll(x0, y0, x1, y1);
    var s := BasicSamples(x0, y0, x1, y1);
    var t := SlopeModifiedLine(x0, y0, x1, y1);
    BasicSampleAt(x0, y0, x1, y1, 0);
    ModifiedPointAt(x0, y0, x1, y1, 0);
    forall i | 0 <= i < |s| ensures s[i] == t[i] {
      BasicSampleAt(x0, y0, x1, y1, i);
      ModifiedPointAt(x0, y0, x1, y1, i);
      ColumnPointsAgree(x0, y0, x1, y1, Min(x0, x1) + i);
    }
  }

  /** The slope is at most one in magnitude when x is the dominant axis. */
  lemma SlopeBounded(x0: int, y0: int, x1: int, y1: int)
    requires XDominant(x0, y0, x1, y1)
    ensures -1.0 <= Slope(x0, y0, x1, y1) <= 1.0
  {
    if x1 - x0 != 0 {
      RatioBounded(y1 - y0, x1 - x0);
    }
  }

  /** The inverse slope is below one in magnitude when y is the dominant axis. */
  lemma InverseSlopeBounded(x0: int, y0: int, x1: int, y1: int)
    requires !XDominant(x0, y0, x1, y1)
    ensures -1.0 <= InverseSlope(x0, y0, x1, y1) <= 1.0
  {
    if y1 - y0 != 0 {
      RatioBounded(x1 - x0, y1 - y0);
    }
  }

  /** Neighbouring columns of the shallow branch give 8-neighbours. */
  lemma ColumnStep(x0: int, y0: int, x1: int, y1: int, x: int)
    requires XDominant(x0, y0, x1, y1)
    ensures Adjacent(ModifiedColumnPoint(x0, y0, x1, y1, x), ModifiedColumnPoint(x0, y0, x1, y1, x + 1))
  {
    var m := Slope(x0, y0, x1, y1);
    SlopeBounded(x0, y0, x1, y1);
    var r := y0 as real + m * (x - x0) as real;
    assert (x + 1 - x0) as real == (x - x0) as real + 1.0;
    assert m * (x + 1 - x0) as real == m * (x - x0) as real + m;
    assert y0 as real + m * (x + 1 - x0) as real == r + m;
    assert ModifiedColumnPoint(x0, y0, x1, y1, x).y == Round(r);
    assert ModifiedColumnPoint(x0, y0, x1, y1, x + 1).y == Round(r + m);
    RoundStep(r, m);
  }

  /** Neighbouring rows of the steep branch give 8-neighbours. */
  lemma RowStep(x0: int, y0: int, x1: int, y1: int, y: int)
    requires !XDominant(x0, y0, x1, y1)
    ensures Adjacent(RowPoint(x0, y0, x1, y1, y), RowPoint(x0, y0, x1, y1, y + 1))
  {
    var mInv := InverseSlope(x0, y0, x1, y1);
    InverseSlopeBounded(x0, y0, x1, y1);
    var r := x0 as real + mInv * (y - y0) as real;
    assert (y + 1 - y0) as real == (y - y0) as real + 1.0;
    assert mInv * (y + 1 - y0) as real == mInv * (y - y0) as real + mInv;
    assert x0 as real + mInv * (y + 1 - y0) as real == r + mInv;
    assert RowPoint(x0, y0, x1, y1, y).x == Round(r);
    assert RowPoint(x0, y0, x1, y1, y + 1).x == Round(r + mInv);
    RoundStep(r, mInv);
  }

  /** slopeModified draws a gap-free line: consecutive points are 8-neighbours. */
  lemma SlopeModifiedConnected(x0: int, y0: int, x1: int, y1: int)
    ensures Connected(SlopeModifiedLine(x0, y0, x1, y1))
  {
    var s := SlopeModifiedLine(x0, y0, x1, y1);
    ModifiedPointAt(x0, y0, x1, y1, 0);
    forall i | 0 <= i < |s| - 1 ensures Adjacent(s[i], s[i + 1]) {
      ModifiedPointAt(x0, y0, x1, y1, i);
      ModifiedPointAt(x0, y0, x1, y1, i + 1);
      if XDominant(x0, y0, x1, y1) {
        ColumnStep(x0, y0, x1, y1, Min(x0, x1) + i);
      } else {
        RowStep(x0, y0, x1, y1, Min(y0, y1) + i);
      }
    }
  }

  /** slopeBasic draws a gap-free line too. */
  lemma SlopeBasicConnected(x0: int, y0: int, x1: int, y1: int)
    ensures Connected(SlopeBasicLine(x0, y0, x1, y1))
  {
    SlopeVariantsAgree(x0, y0, x1, y1);
    SlopeModifiedConnected(x0, y0, x1, y1);
  }

  lemma BasicColumnFormula(x0: int, y0: int, x1: int, y1: int, x: int, m: real, b: real)
    requires m == (if x1 - x0 == 0 then 0.0 else (y1 - y0) as real / (x1 - x0) as real)
    requires b == y0 as real - m * x0 as real
    ensures Point(x, Round(m * x as real + b)) == BasicColumnPoint(x0, y0, x1, y1, x)
  {
  }

  lemma ModifiedColumnFormula(x0: int, y0: int, x1: int, y1: int, x: int, m: real)
    requires m == (if x1 - x0 == 0 then 0.0 else (y1 - y0) as real / (x1 - x0) as real)
    ensures Point(x, Round(y0 as real + m * (x - x0) as real)) == ModifiedColumnPoint(x0, y0, x1, y1, x)
  {
  }

  lemma RowFormula(x0: int, y0: int, x1: int, y1: int, y: int, mInv: real)
    requires mInv == (if y1 - y0 == 0 then 0.0 else (x1 - x0) as real / (y1 - y0) as real)
    ensures Point(Round(x0 as real + mInv * (y - y0) as real), y) == RowPoint(x0, y0, x1, y1, y)
  {
  }

  /** `slopeBasic`: sample the dominant axis, then drop repeated points. */
  method SlopeBasic(x0: int, y0: int, x1: int, y1: int) returns (pts: seq<Point>)
    ensures pts == SlopeBasicLine(x0, y0, x1, y1)
    ensures Distinct(pts)
    ensures |pts| == DominantSpan(x0, y0, x1, y1) + 1
  {
    var dx := x1 - x0;
    var dy := y1 - y0;
    if dx == 0 && dy == 0 {
      pts := [Point(x0, y0)];
      SlopeBasicWalk(x0, y0, x1, y1);
      return;
    }
    var samples: seq<Point> := [];
    // one sample per cell of the longer axis, so no column or row is skipped
    if Abs(dx) >= Abs(dy) {
      var m := if dx == 0 then 0.0 else dy as real / dx as real;
      var b := y0 as real - m * x0 as real;
      var xmin, xmax := if x0 < x1 then x0 else x1, if x0 < x1 then x1 else x0;
      var x := xmin;
      while x <= xmax
        invariant xmin <= x <= xmax + 1 && |samples| == x - xmin
        invariant forall k :: 0 <= k < |samples| ==> samples[k] == BasicColumnPoint(x0, y0, x1, y1, xmin + k)
      {
        BasicColumnFormula(x0, y0, x1, y1, x, m, b);
        samples := samples + [Point(x, Round(m * x as real + b))];
        x := x + 1;
      }
      BasicSamplesFromColumns(x0, y0, x1, y1, samples);
    } else {
      var mInv := if dy == 0 then 0.0 else dx as real / dy as real;
      var ymin, ymax := if y0 < y1 then y0 else y1, if y0 < y1 then y1 else y0;
      var y := ymin;
      while y <= ymax
        invariant ymin <= y <= ymax + 1 && |samples| == y - ymin
        invariant forall k :: 0 <= k < |samples| ==> samples[k] == RowPoint(x0, y0, x1, y1, ymin + k)
      {
        RowFormula(x0, y0, x1, y1, y, mInv);
        samples := samples + [Point(Round(x0 as real + mInv * (y - y0) as real), y)];
        y := y + 1;
      }
      BasicSamplesFromRows(x0, y0, x1, y1, samples);
    }
    pts := FilterRepeats(samples);
    SlopeBasicWalk(x0, y0, x1, y1);
  }

  /** `slopeModified`: sample the dominant axis; nothing is filtered. */
  method SlopeModified(x0: int, y0: int, x1: int, y1: int) returns (pts: seq<Point>)
    ensures pts == SlopeModifiedLine(x0, y0, x1, y1)
    ensures |pts| == DominantSpan(x0, y0, x1, y1) + 1
    ensures Distinct(pts) && Connected(pts)
  {
    pts := [];
    var dx := x1 - x0;
    var dy := y1 - y0;
    if Abs(dx) >= Abs(dy) {
      var m := if dx == 0 then 0.0 else dy as real / dx as real;
      var xmin, xmax := if x0 < x1 then x0 else x1, if x0 < x1 then x1 else x0;
      var x := xmin;
      while x <= xmax
        invariant xmin <= x <= xmax + 1 && |pts| == x - xmin
        invariant forall k :: 0 <= k < |pts| ==> pts[k] == ModifiedColumnPoint(x0, y0, x1, y1, xmin + k)
      {
        ModifiedColumnFormula(x0, y0, x1, y1, x, m);
        pts := pts + [Point(x, Round(y0 as real + m * (x - x0) as real))];
        x := x + 1;
      }
      ModifiedLineFromColumns(x0, y0, x1, y1, pts);
    } else {
      var mInv := if dy == 0 then 0.0 else dx as real / dy as real;
      var ymin, ymax := if y0 < y1 then y0 else y1, if y0 < y1 then y1 else y0;
      var y := ymin;
      while y <= ymax
        invariant ymin <= y <= ymax + 1 && |pts| == y - ymin
        invariant forall k :: 0 <= k < |pts| ==> pts[k] == RowPoint(x0, y0, x1, y1, ymin + k)
      {
        RowFormula(x0, y0, x1, y1, y, mInv);
        pts := pts + [Point(Round(x0 as real + mInv * (y - y0) as real), y)];
        y := y + 1;
      }
      ModifiedLineFromRows(x0, y0, x1, y1, pts);
    }
    SlopeModifiedWalk(x0, y0, x1, y1);
    SlopeModifiedConnected(x0, y0, x1, y1);
  }
}
