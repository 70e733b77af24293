/**
 * The state of the lines page, shared by the grid and the sidebar: the two
 * selected points, the rasterised line and the algorithm selector, with the
 * handlers that update them.
 */
module LinesPage {
  import opened Wrappers
  import opened Geometry
  import Algorithms
  import Grid

  /** A selected point, defaulting to the origin when none was selected. */
  function OrOrigin(p: Option<Point>): Point
  {
    if p.Some? then p.value else Point(0, 0)
  }

  /**
   * `{ ...(prev || { x: 0, y: 0 }), [axis]: num }`: the previous point (or
   * the origin) with the named axis set; an axis other than "x" or "y" adds
   * a key the grid never reads.
   */
  function WithCoord(prev: Option<Point>, axis: string, num: int): (r: Point)
    ensures axis == "x" ==> r.x == num && r.y == OrOrigin(prev).y
    ensures axis == "y" ==> r.y == num && r.x == OrOrigin(prev).x
    ensures axis != "x" && axis != "y" ==> r == OrOrigin(prev)
  {
    var base := OrOrigin(prev);
    if axis == "x" then base.(x := num)
    else if axis == "y" then base.(y := num)
    else base
  }

  /** A point that is either unset or a cell of the grid. */
  predicate OnGrid(p: Option<Point>)
  {
    p.Some? ==> Grid.InGrid(p.value)
  }

  class PageState {
    var pointA: Option<Point>
    var pointB: Option<Point>
    var linePoints: seq<Point>
    var algo: string

    /** The class invariant: selected points always lie on the grid. */
    predicate Valid()
      reads this
    {
      OnGrid(pointA) && OnGrid(pointB)
    }

    /** The page's initial state; its selector names no algorithm. */
    constructor()
      ensures pointA == None && pointB == None && linePoints == [] && algo == "slope-intercept"
      ensures Valid()
    {
      pointA := None;
      pointB := None;
      linePoints := [];
      algo := "slope-intercept";
    }

    /**
     * `handleClick`: the first click chooses A and clears the line, the
     * second chooses B, and a click with both chosen starts over from A.
     * Clicks come from the rendered cells, which all lie on the grid.
     */
    method HandleClick(x: int, y: int)
      requires Valid() && Grid.InGrid(Point(x, y))
      modifies this
      ensures Valid()
      ensures algo == old(algo)
      ensures old(pointA).None? ==>
        pointA == Some(Point(x, y)) && pointB == old(pointB) && linePoints == []
      ensures old(pointA).Some? && old(pointB).None? ==>
        pointA == old(pointA) && pointB == Some(Point(x, y)) && linePoints == old(linePoints)
      ensures old(pointA).Some? && old(pointB).Some? ==>
        pointA == Some(Point(x, y)) && pointB == None && linePoints == []
    {
      if pointA.None? {
        pointA := Some(Point(x, y));
        linePoints := [];
        return;
      }
      if pointB.None? {
        pointB := Some(Point(x, y));
        return;
      }
      pointA := Some(Point(x, y));
      pointB := None;
      linePoints := [];
    }

    /**
     * The grid's effect, run whenever A, B or the selector changes: with
     * both points chosen the line is recomputed.
     */
    method RecomputeLine()
      requires Valid()
      modifies this
      ensures Valid()
      ensures pointA == old(pointA) && pointB == old(pointB) && algo == old(algo)
      ensures pointA.Some? && pointB.Some? ==>
        linePoints == Algorithms.Line(pointA.value.x, pointA.value.y, pointB.value.x, pointB.value.y, algo)
      ensures !(pointA.Some? && pointB.Some?) ==> linePoints == old(linePoints)
    {
      if pointA.Some? && pointB.Some? {
        var pts := Algorithms.ComputeLine(pointA.value.x, pointA.value.y, pointB.value.x, pointB.value.y, algo);
        linePoints := pts;
      }
    }

    /** `handleGenerate`: recompute the line, but only when both points are chosen. */
    method HandleGenerate()
      requires Valid()
      modifies this
      ensures Valid()
      ensures pointA == old(pointA) && pointB == old(pointB) && algo == old(algo)
      ensures pointA.None? || pointB.None? ==> linePoints == old(linePoints)
      ensures pointA.Some? && pointB.Some? ==>
        linePoints == Algorithms.Line(pointA.value.x, pointA.value.y, pointB.value.x, pointB.value.y, algo)
    {
      if pointA.None? || pointB.None? {
        return;
      }
      var pts := Algorithms.ComputeLine(pointA.value.x, pointA.value.y, pointB.value.x, pointB.value.y, algo);
      linePoints := pts;
    }

    /** `handleReset`: clear both points and the line; the selector stays. */
    method HandleReset()
      requires Valid()
      modifies this
      ensures pointA == None && pointB == None && linePoints == [] && algo == old(algo)
      ensures Valid()
    {
      pointA := None;
      pointB := None;
      linePoints := [];
    }

    /**
     * `updateCoord`: `num` is the parsed input, `None` when it is not a
     * number. Out-of-range or missing values change nothing; otherwise the
     * named axis of A (when `which` is "A") or of B (anything else) is set.
     */
    method UpdateCoord(which: string, axis: string, num: Option<int>)
      requires Valid()
      modifies this
      ensures Valid()
      ensures linePoints == old(linePoints) && algo == old(algo)
      ensures num.None? || num.value < -20 || num.value > 20 ==>
        pointA == old(pointA) && pointB == old(pointB)
      ensures num.Some? && -20 <= num.value <= 20 && which == "A" ==>
        pointA == Some(WithCoord(old(pointA), axis, num.value)) && pointB == old(pointB)
      ensures num.Some? && -20 <= num.value <= 20 && which != "A" ==>
        pointB == Some(WithCoord(old(pointB), axis, num.value)) && pointA == old(pointA)
    {
      if num.None? || num.value < -20 || num.value > 20 {
        return;
      }
      if which == "A" {
        pointA := Some(WithCoord(pointA, axis, num.value));
      } else {
        pointB := Some(WithCoord(pointB, axis, num.value));
      }
    }

    /** The selector's `onChange`: store the chosen value. */
    method SelectAlgorithm(value: string)
      requires Valid()
      modifies this
      ensures Valid()
      ensures algo == value
      ensures pointA == old(pointA) && pointB == old(pointB) && linePoints == old(linePoints)
    {
      algo := value;
    }
  }

  /** The page's first selector is not one of the five, so nothing is drawn until another is picked. */
  lemma InitialSelectorDrawsNothing(a: Point, b: Point)
    ensures Algorithms.Line(a.x, a.y, b.x, b.y, "slope-intercept") == []
    ensures !Algorithms.Supported("slope-intercept")
  {
  }

  /** An accepted coordinate keeps a point on the grid. */
  lemma WithCoordStaysOnGrid(prev: Option<Point>, axis: string, num: int)
    requires OnGrid(prev) && -20 <= num <= 20
    ensures Grid.InGrid(WithCoord(prev, axis, num))
  {
  }
}
