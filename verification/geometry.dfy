/**
 * Integer grid points, JavaScript's rounding, and the predicates used to
 * describe the point lists that the line rasterisers produce.
 */
module Geometry {

  /** A cell of the integer grid, the `{x, y}` objects the rasterisers push. */
  datatype Point = Point(x: int, y: int)

  function Abs(n: int): (r: nat)
    ensures r == n || r == -n
  {
    if n < 0 then -n else n
  }

  function Max(a: int, b: int): int { if a >= b then a else b }

  function Min(a: int, b: int): int { if a <= b then a else b }

  /** The unit step toward the sign of `n`: -1, 0 or 1. */
  function Sign(n: int): (s: int)
    ensures n > 0 ==> s == 1
    ensures n < 0 ==> s == -1
    ensures n == 0 ==> s == 0
  {
    if n == 0 then 0 else if n > 0 then 1 else -1
  }

  /**
   * JavaScript's `Math.round`: the integer nearest to `r`, a tie going to
   * the larger integer (so -2.5 rounds to -2, not -3).
   */
  function Round(r: real): (n: int)
    ensures r - 0.5 < n as real <= r + 0.5
  {
    (r + 0.5).Floor
  }

  /** Rounding leaves an integer as it is. */
  lemma RoundOfInt(k: int)
    ensures Round(k as real) == k
  {
  }

  /** Moving a real by at most one moves its rounding by at most one. */
  lemma RoundStep(r: real, d: real)
    requires -1.0 <= d <= 1.0
    ensures -1 <= Round(r + d) - Round(r) <= 1
  {
  }

  /**
   * Rounding `a + i*inc` and `a + (i+1)*inc`, with one increment of at most one
   * between them, gives integers at most one apart.
   */
  lemma RoundedAccumulationStep(a: real, i: int, inc: real)
    requires -1.0 <= inc <= 1.0
    ensures -1 <= Round(a + (i + 1) as real * inc) - Round(a + i as real * inc) <= 1
  {
    var r := a + i as real * inc;
    assert (i + 1) as real * inc == i as real * inc + inc;
    assert a + (i + 1) as real * inc == r + inc;
    RoundStep(r, inc);
  }

  /** A quotient whose numerator is at most its positive denominator in magnitude lies in [-1, 1]. */
  lemma QuotientBounded(n: real, d: real)
    requires d > 0.0 && -d <= n <= d
    ensures -1.0 <= n / d <= 1.0
  {
    var q := n / d;
    assert q * d == n;
    assert (1.0 - q) * d == d - n;
    assert (1.0 + q) * d == d + n;
  }

  /** `a/b` lies in [-1, 1] when `|a| <= |b|`. */
  lemma RatioBounded(a: int, b: int)
    requires b != 0 && Abs(a) <= Abs(b)
    ensures -1.0 <= a as real / b as real <= 1.0
  {
    if b > 0 {
      QuotientBounded(a as real, b as real);
    } else {
      assert a as real / b as real == (-a) as real / (-b) as real;
      QuotientBounded((-a) as real, (-b) as real);
    }
  }

  /**
   * The number of unit steps along the dominant axis, `max(|dx|, |dy|)`:
   * the span the slope and Bresenham loops walk and dda's `steps`.
   */
  function DominantSpan(x0: int, y0: int, x1: int, y1: int): nat
  {
    Max(Abs(x1 - x0), Abs(y1 - y0))
  }

  /** The slope `m = dy/dx`, or 0 for a vertical segment, as every slope-based rasteriser computes it. */
  function Slope(x0: int, y0: int, x1: int, y1: int): real
  {
    if x1 - x0 == 0 then 0.0 else (y1 - y0) as real / (x1 - x0) as real
  }

  /** The inverse slope `mInv = dx/dy`, or 0 for a horizontal segment. */
  function InverseSlope(x0: int, y0: int, x1: int, y1: int): real
  {
    if y1 - y0 == 0 then 0.0 else (x1 - x0) as real / (y1 - y0) as real
  }

  /** Two distinct cells that touch, sideways or diagonally (8-neighbourhood). */
  predicate Adjacent(p: Point, q: Point)
  {
    p != q && Abs(p.x - q.x) <= 1 && Abs(p.y - q.y) <= 1
  }

  /** Consecutive points of `s` are 8-neighbours: the drawn line has no gap and no stutter. */
  predicate Connected(s: seq<Point>)
  {
    forall i :: 0 <= i < |s| - 1 ==> Adjacent(s[i], s[i + 1])
  }

  /** No point occurs twice in `s`. */
  predicate Distinct(s: seq<Point>)
  {
    forall i, j :: 0 <= i < j < |s| ==> s[i] != s[j]
  }

  /** `v` lies between `a` and `b`, inclusive, whichever of the two is larger. */
  predicate Between(a: int, v: int, b: int)
  {
    (a <= v <= b) || (b <= v <= a)
  }

  /** `p` lies in the axis-aligned box spanned by `(x0,y0)` and `(x1,y1)`. */
  predicate InBox(x0: int, y0: int, x1: int, y1: int, p: Point)
  {
    Between(x0, p.x, x1) && Between(y0, p.y, y1)
  }

  /**
   * The first occurrence of every point of `s`, in the order of `s`: the
   * filter of slopeBasic, which drops a point whose key it has already seen.
   */
  function Dedup(s: seq<Point>): seq<Point>
    decreases |s|
  {
    if s == [] then []
    else
      var r := Dedup(s[..|s| - 1]);
      if s[|s| - 1] in r then r else r + [s[|s| - 1]]
  }

  /** Filtering one more point of `s` keeps it exactly when it is new. */
  lemma DedupExtend(s: seq<Point>, i: int)
    requires 0 <= i < |s|
    ensures Dedup(s[..i + 1]) ==
      if s[i] in Dedup(s[..i]) then Dedup(s[..i]) else Dedup(s[..i]) + [s[i]]
  {
    assert s[..i + 1][..i] == s[..i];
  }

  /** The filter keeps exactly the points of its input. */
  lemma {:induction false} DedupSameElements(s: seq<Point>)
    ensures forall p :: p in Dedup(s) <==> p in s
    decreases |s|
  {
    if s != [] {
      DedupSameElements(s[..|s| - 1]);
      assert s == s[..|s| - 1] + [s[|s| - 1]];
    }
  }

  /** The filter never lets a point through twice. */
  lemma {:induction false} DedupDistinct(s: seq<Point>)
    ensures Distinct(Dedup(s))
    decreases |s|
  {
    if s != [] {
      DedupDistinct(s[..|s| - 1]);
    }
  }

  /** On a list without repeats the filter changes nothing. */
  lemma {:induction false} DedupOfDistinct(s: seq<Point>)
    requires Distinct(s)
    ensures Dedup(s) == s
    decreases |s|
  {
    if s != [] {
      var init := s[..|s| - 1];
      assert Distinct(init);
      DedupOfDistinct(init);
      assert s[|s| - 1] !in init;
      assert s == init + [s[|s| - 1]];
    }
  }

  /**
   * The filter at the end of `slopeBasic`: a point is kept when the set of
   * points seen so far does not hold it yet, and is then added to that set.
   */
  method FilterRepeats(s: seq<Point>) returns (r: seq<Point>)
    ensures r == Dedup(s)
    ensures Distinct(r)
    ensures forall p :: p in r <==> p in s
  {
    var seen: set<Point> := {};
    r := [];
    for i := 0 to |s|
      invariant r == Dedup(s[..i])
      invariant forall p :: p in seen <==> p in r
    {
      var p := s[i];
      DedupExtend(s, i);
      if p !in seen {
        seen := seen + {p};
        r := r + [p];
      }
    }
    assert s[..|s|] == s;
    DedupDistinct(s);
    DedupSameElements(s);
  }
}
