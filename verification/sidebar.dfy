/** The algorithm selector offered by the sidebar. */
module Sidebar {
  import opened Geometry
  import Algorithms

  /** One entry of the selector: the value passed to `computeLine` and its caption (`label`). */
  datatype AlgoOption = AlgoOption(value: string, caption: string)

  /** The `algos` table, in display order. */
  const Algos: seq<AlgoOption> := [
    AlgoOption("slope-basic", "Slope Intercept básico"),
    AlgoOption("slope-mod", "Slope Intercept modificado"),
    AlgoOption("dda", "Algoritmo DDA"),
    AlgoOption("bresenham-float", "Bresenham (aritmética real)"),
    AlgoOption("bresenham-int", "Bresenham (aritmética entera)")
  ]

  /**
   * The table offers exactly the five selectors `computeLine` dispatches on,
   * each once.
   */
  lemma AlgosAreTheSupportedSelectors()
    ensures forall s :: Algorithms.Supported(s) <==> exists k :: 0 <= k < |Algos| && Algos[k].value == s
    ensures forall i, j :: 0 <= i < j < |Algos| ==> Algos[i].value != Algos[j].value
  {
    forall s | Algorithms.Supported(s) ensures exists k :: 0 <= k < |Algos| && Algos[k].value == s {
      if s == "slope-basic" { assert Algos[0].value == s; }
      else if s == "slope-mod" { assert Algos[1].value == s; }
      else if s == "dda" { assert Algos[2].value == s; }
      else if s == "bresenham-float" { assert Algos[3].value == s; }
      else { assert Algos[4].value == s; }
    }
  }

  /** Whatever the user picks from the table, a line has at least one point and both endpoints. */
  lemma EveryChoiceDraws(k: int, a: Point, b: Point)
    requires 0 <= k < |Algos|
    ensures var r := Algorithms.Line(a.x, a.y, b.x, b.y, Algos[k].value);
      r != [] && a in r && b in r
  {
    AlgosAreTheSupportedSelectors();
    Algorithms.SupportedLinesAreSimplePaths(a.x, a.y, b.x, b.y, Algos[k].value);
  }
}
