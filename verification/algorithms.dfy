/**
 * `computeLine`: the selector switch in front of the five rasterisers, and
 * the properties all of them share.
 */
module Algorithms {
  import opened Geometry
  import SlopeLines
  import Dda
  import BresenhamFloat
  import BresenhamInt

  /** The five selectors `computeLine` recognises. */
  predicate Supported(algo: string)
  {
    algo == "slope-basic" || algo == "slope-mod" || algo == "dda" ||
    algo == "bresenham-float" || algo == "bresenham-int"
  }

  /** The result of `computeLine(x0, y0, x1, y1, algo)`. */
  function Line(x0: int, y0: int, x1: int, y1: int, algo: string): seq<Point>
  {
    if algo == "slope-basic" then SlopeLines.SlopeBasicLine(x0, y0, x1, y1)
    else if algo == "slope-mod" then SlopeLines.SlopeModifiedLine(x0, y0, x1, y1)
    else if algo == "dda" then Dda.DdaLine(x0, y0, x1, y1)
    else if algo == "bresenham-float" then BresenhamFloat.BresenhamFloatLine(x0, y0, x1, y1)
    else if algo == "bresenham-int" then BresenhamInt.BresenhamIntLine(x0, y0, x1, y1)
    else []
  }

  /** `computeLine`: run the rasteriser the selector names, or return no points. */
  method ComputeLine(x0: int, y0: int, x1: int, y1: int, algo: string) returns (pts: seq<Point>)
    ensures pts == Line(x0, y0, x1, y1, algo)
    ensures Supported(algo) ==> Connected(pts) && Distinct(pts)
    ensures !Supported(algo) ==> pts == []
  {
    if algo == "slope-basic" {
      pts := SlopeLines.SlopeBasic(x0, y0, x1, y1);
    } else if algo == "slope-mod" {
      pts := SlopeLines.SlopeModified(x0, y0, x1, y1);
    } else if algo == "dda" {
      pts := Dda.Dda(x0, y0, x1, y1);
    } else if algo == "bresenham-float" {
      pts := BresenhamFloat.BresenhamFloat(x0, y0, x1, y1);
    } else if algo == "bresenham-int" {
      pts := BresenhamInt.BresenhamInt(x0, y0, x1, y1);
    } else {
      pts := [];
    }
    if Supported(algo) {
      SupportedLinesAreSimplePaths(x0, y0, x1, y1, algo);
    }
  }

  /**
   * Every supported algorithm draws a gap-free path without repeats that
   * contains both endpoints.
   */
  lemma SupportedLinesAreSimplePaths(x0: int, y0: int, x1: int, y1: int, algo: string)
    requires Supported(algo)
    ensures var r := Line(x0, y0, x1, y1, algo);
      |r| >= 1 && Point(x0, y0) in r && Point(x1, y1) in r && Connected(r) && Distinct(r)
  {
    var r := Line(x0, y0, x1, y1, algo);
    if algo == "slope-basic" || algo == "slope-mod" {
      SlopeLines.SlopeLinesEndpoints(x0, y0, x1, y1);
      SlopeLines.SlopeBasicConnected(x0, y0, x1, y1);
      SlopeLines.SlopeModifiedConnected(x0, y0, x1, y1);
      SlopeLines.SlopeBasicWalk(x0, y0, x1, y1);
      SlopeLines.SlopeModifiedWalk(x0, y0, x1, y1);
      assert r[0] in r && r[|r| - 1] in r;
    } else if algo == "dda" {
      Dda.DdaEndpoints(x0, y0, x1, y1);
      Dda.DdaConnected(x0, y0, x1, y1);
      Dda.DdaDistinct(x0, y0, x1, y1);
      assert r[0] in r && r[|r| - 1] in r;
    } else if algo == "bresenham-float" {
      BresenhamFloat.BresenhamFloatSimplePath(x0, y0, x1, y1);
      assert r[0] in r && r[|r| - 1] in r;
    } else {
      BresenhamInt.BresenhamIntSimplePath(x0, y0, x1, y1);
      assert r[0] in r && r[|r| - 1] in r;
    }
  }

  /** `computeLine` returns no points exactly when the selector is not one of the five. */
  lemma EmptyExactlyWhenUnsupported(x0: int, y0: int, x1: int, y1: int, algo: string)
    ensures Line(x0, y0, x1, y1, algo) == [] <==> !Supported(algo)
  {
    if Supported(algo) {
      SupportedLinesAreSimplePaths(x0, y0, x1, y1, algo);
    }
  }

  /** Every supported algorithm draws a single cell as just that cell. */
  lemma SinglePointLines(x0: int, y0: int, algo: string)
    requires Supported(algo)
    ensures Line(x0, y0, x0, y0, algo) == [Point(x0, y0)]
  {
    SlopeLines.SlopeBasicSinglePoint(x0, y0);
    SlopeLines.SlopeModifiedSinglePoint(x0, y0);
    Dda.DdaSinglePoint(x0, y0);
    BresenhamFloat.BresenhamFloatSinglePoint(x0, y0);
    BresenhamInt.BresenhamIntSinglePoint(x0, y0);
  }

  /**
   * In exact arithmetic the two slope variants draw the same line, and so do
   * dda and bresenhamFloat.
   */
  lemma RealValuedAlgorithmsAgree(x0: int, y0: int, x1: int, y1: int)
    ensures Line(x0, y0, x1, y1, "slope-basic") == Line(x0, y0, x1, y1, "slope-mod")
    ensures Line(x0, y0, x1, y1, "dda") == Line(x0, y0, x1, y1, "bresenham-float")
  {
    SlopeLines.SlopeVariantsAgree(x0, y0, x1, y1);
    BresenhamFloat.BresenhamFloatMatchesDda(x0, y0, x1, y1);
  }
}
