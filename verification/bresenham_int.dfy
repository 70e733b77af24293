/**
 * `bresenhamInt`: the integer-error Bresenham line. The loop state is the
 * current cell and the error term; each iteration emits the cell, stops on
 * the endpoint, and otherwise takes an x step, a y step or both according
 * to the sign of twice the error.
 */
module BresenhamInt {
  import opened Geometry

  /** The loop state `(x, y, err)`. */
  datatype BState = BState(x: int, y: int, err: int)

  function At(s: BState): Point { Point(s.x, s.y) }

  /** `sx`/`sy`: +1 toward a larger endpoint, otherwise -1 (also when equal). */
  function UnitStep(from: int, to: int): int { if from < to then 1 else -1 }

  /** The state before the first iteration: `err = dx - dy`. */
  function Init(x0: int, y0: int, x1: int, y1: int): BState
  {
    BState(x0, y0, Abs(x1 - x0) - Abs(y1 - y0))
  }

  /** One iteration after the cell is emitted, when it is not the endpoint. */
  function Step(x0: int, y0: int, x1: int, y1: int, s: BState): BState
  {
    var dx: int, dy: int := Abs(x1 - x0), Abs(y1 - y0);
    var e2 := s.err * 2;
    var afterX := if e2 > -dy then BState(s.x + UnitStep(x0, x1), s.y, s.err - dy) else s;
    if e2 < dx then BState(afterX.x, afterX.y + UnitStep(y0, y1), afterX.err + dx) else afterX
  }

  /**
   * The states the loop can reach: the cell lies in the endpoints' box and,
   * with `cx`, `cy` the steps taken along each axis,
   * `err = dx*(cy+1) - dy*(cx+1)`.
   */
  predicate Reachable(x0: int, y0: int, x1: int, y1: int, s: BState)
  {
    var dx, dy := Abs(x1 - x0), Abs(y1 - y0);
    InBox(x0, y0, x1, y1, At(s)) &&
    s.err == ErrorTerm(dx, dy, Abs(s.x - x0), Abs(s.y - y0))
  }

  /** The error after `cx` steps along x and `cy` along y. */
  function ErrorTerm(dx: int, dy: int, cx: int, cy: int): int
  {
    dx * (cy + 1) - dy * (cx + 1)
  }

  /** An x step subtracts `dy` from the error, a y step adds `dx`. */
  lemma ErrorTermSteps(dx: int, dy: int, cx: int, cy: int)
    ensures ErrorTerm(dx, dy, cx + 1, cy) == ErrorTerm(dx, dy, cx, cy) - dy
    ensures ErrorTerm(dx, dy, cx, cy + 1) == ErrorTerm(dx, dy, cx, cy) + dx
    ensures ErrorTerm(dx, dy, cx + 1, cy + 1) == ErrorTerm(dx, dy, cx, cy) - dy + dx
  {
  }

  /** Distance still to walk; the termination measure of the loop. */
  function Remaining(x1: int, y1: int, s: BState): nat
  {
    Abs(x1 - s.x) + Abs(y1 - s.y)
  }

  /** Distance walked from the first endpoint. */
  function Rank(x0: int, y0: int, p: Point): nat
  {
    Abs(p.x - x0) + Abs(p.y - y0)
  }

  lemma InitReachable(x0: int, y0: int, x1: int, y1: int)
    ensures Reachable(x0, y0, x1, y1, Init(x0, y0, x1, y1))
  {
  }

  lemma MulNonNegative(a: int, b: int)
    requires a >= 0 && b >= 0
    ensures a * b >= 0
  {
  }

  /**
   * Once an axis is exhausted the error term forbids stepping along it:
   * `cx = dx` forces `err <= -dy`, and `cy = dy` forces `err >= dx`.
   */
  lemma ErrorAtBoundary(dx: int, dy: int, cx: int, cy: int)
    requires 0 <= cx <= dx && 0 <= cy <= dy
    ensures cx == dx && cy < dy ==> ErrorTerm(dx, dy, cx, cy) <= -dy
    ensures cy == dy && cx < dx ==> ErrorTerm(dx, dy, cx, cy) >= dx
  {
    if cx == dx && cy < dy {
      MulNonNegative(dx, dy - cy - 1);
      assert ErrorTerm(dx, dy, cx, cy) == -dx * (dy - cy - 1) - dy;
    }
    if cy == dy && cx < dx {
      MulNonNegative(dy, dx - cx - 1);
      assert ErrorTerm(dx, dy, cx, cy) == dy * (dx - cx - 1) + dx;
    }
  }

  /** Moving one unit toward `to` from a value between `from` and `to`. */
  lemma UnitStepToward(from: int, v: int, to: int)
    requires Between(from, v, to) && v != to
    ensures Between(from, v + UnitStep(from, to), to)
    ensures Abs(v + UnitStep(from, to) - from) == Abs(v - from) + 1
    ensures Abs(to - (v + UnitStep(from, to))) == Abs(to - v) - 1
  {
  }

  /** `Step` in terms of the loop's own locals. */
  lemma StepLocals(x0: int, y0: int, x1: int, y1: int, s: BState, dx: int, dy: int, sx: int, sy: int)
    requires dx == Abs(x1 - x0) && dy == Abs(y1 - y0) && sx == UnitStep(x0, x1) && sy == UnitStep(y0, y1)
    ensures Step(x0, y0, x1, y1, s) ==
      BState(if s.err * 2 > -dy then s.x + sx else s.x,
             if s.err * 2 < dx then s.y + sy else s.y,
             s.err - (if s.err * 2 > -dy then dy else 0) + (if s.err * 2 < dx then dx else 0))
  {
  }

  /** The loop's `e2 > -dy` test: this iteration steps along x. */
  predicate StepsX(x0: int, y0: int, x1: int, y1: int, s: BState)
  {
    s.err * 2 > -(Abs(y1 - y0) as int)
  }

  /** The loop's `e2 < dx` test: this iteration steps along y. */
  predicate StepsY(x0: int, y0: int, x1: int, y1: int, s: BState)
  {
    s.err * 2 < Abs(x1 - x0)
  }

  /**
   * From a reachable state that is not the endpoint, at least one of the two
   * tests fires, and neither fires along an axis already at the endpoint.
   */
  lemma StepGuards(x0: int, y0: int, x1: int, y1: int, s: BState)
    requires Reachable(x0, y0, x1, y1, s) && At(s) != Point(x1, y1)
    ensures StepsX(x0, y0, x1, y1, s) ==> s.x != x1
    ensures StepsY(x0, y0, x1, y1, s) ==> s.y != y1
    ensures StepsX(x0, y0, x1, y1, s) || StepsY(x0, y0, x1, y1, s)
  {
    ErrorAtBoundary(Abs(x1 - x0), Abs(y1 - y0), Abs(s.x - x0), Abs(s.y - y0));
  }

  /** How one iteration moves the cell, given that the guards are consistent. */
  lemma StepMoves(x0: int, y0: int, x1: int, y1: int, s: BState)
    requires InBox(x0, y0, x1, y1, At(s))
    requires StepsX(x0, y0, x1, y1, s) ==> s.x != x1
    requires StepsY(x0, y0, x1, y1, s) ==> s.y != y1
    requires StepsX(x0, y0, x1, y1, s) || StepsY(x0, y0, x1, y1, s)
    ensures var t := Step(x0, y0, x1, y1, s);
      InBox(x0, y0, x1, y1, At(t)) &&
      Abs(t.x - x0) == Abs(s.x - x0) + (if StepsX(x0, y0, x1, y1, s) then 1 else 0) &&
      Abs(t.y - y0) == Abs(s.y - y0) + (if StepsY(x0, y0, x1, y1, s) then 1 else 0) &&
      t.err == s.err - (if StepsX(x0, y0, x1, y1, s) then Abs(y1 - y0) else 0)
                     + (if StepsY(x0, y0, x1, y1, s) then Abs(x1 - x0) else 0) &&
      Adjacent(At(s), At(t)) &&
      Remaining(x1, y1, t) < Remaining(x1, y1, s) &&
      Rank(x0, y0, At(t)) > Rank(x0, y0, At(s))
  {
    StepLocals(x0, y0, x1, y1, s, Abs(x1 - x0), Abs(y1 - y0), UnitStep(x0, x1), UnitStep(y0, y1));
    if StepsX(x0, y0, x1, y1, s) { UnitStepToward(x0, s.x, x1); }
    if StepsY(x0, y0, x1, y1, s) { UnitStepToward(y0, s.y, y1); }
  }

  /**
   * One iteration from a reachable state that is not the endpoint keeps the
   * state reachable, moves to an 8-neighbour, gets strictly closer to the
   * endpoint and strictly farther from the start.
   */
  lemma StepPreserves(x0: int, y0: int, x1: int, y1: int, s: BState)
    requires Reachable(x0, y0, x1, y1, s) && At(s) != Point(x1, y1)
    ensures var t := Step(x0, y0, x1, y1, s);
      Reachable(x0, y0, x1, y1, t) &&
      Adjacent(At(s), At(t)) &&
      Remaining(x1, y1, t) < Remaining(x1, y1, s) &&
      Rank(x0, y0, At(t)) > Rank(x0, y0, At(s))
  {
    StepGuards(x0, y0, x1, y1, s);
    StepMoves(x0, y0, x1, y1, s);
    ErrorTermSteps(Abs(x1 - x0), Abs(y1 - y0), Abs(s.x - x0), Abs(s.y - y0));
  }

  /** The cells the loop emits from state `s` onwards. */
  function BresenhamFrom(x0: int, y0: int, x1: int, y1: int, s: BState): seq<Point>
    requires Reachable(x0, y0, x1, y1, s)
    decreases Remaining(x1, y1, s)
  {
    if At(s) == Point(x1, y1) then [At(s)]
    else
      StepPreserves(x0, y0, x1, y1, s);
      [At(s)] + BresenhamFrom(x0, y0, x1, y1, Step(x0, y0, x1, y1, s))
  }

  /** One iteration of the loop peels one cell off the remaining line. */
  lemma FromUnfold(x0: int, y0: int, x1: int, y1: int, s: BState)
    requires Reachable(x0, y0, x1, y1, s)
    ensures At(s) == Point(x1, y1) ==> BresenhamFrom(x0, y0, x1, y1, s) == [At(s)]
    ensures At(s) != Point(x1, y1) ==>
      Reachable(x0, y0, x1, y1, Step(x0, y0, x1, y1, s)) &&
      Remaining(x1, y1, Step(x0, y0, x1, y1, s)) < Remaining(x1, y1, s) &&
      BresenhamFrom(x0, y0, x1, y1, s) == [At(s)] + BresenhamFrom(x0, y0, x1, y1, Step(x0, y0, x1, y1, s))
  {
    if At(s) != Point(x1, y1) {
      StepPreserves(x0, y0, x1, y1, s);
    }
  }

  /** The result of bresenhamInt. */
  function BresenhamIntLine(x0: int, y0: int, x1: int, y1: int): seq<Point>
  {
    InitReachable(x0, y0, x1, y1);
    BresenhamFrom(x0, y0, x1, y1, Init(x0, y0, x1, y1))
  }

  /** From any reachable state the loop emits that state's cell first and stops on the endpoint. */
  lemma {:induction false} FromEnds(x0: int, y0: int, x1: int, y1: int, s: BState)
    requires Reachable(x0, y0, x1, y1, s)
    ensures var r := BresenhamFrom(x0, y0, x1, y1, s);
      |r| >= 1 && r[0] == At(s) && r[|r| - 1] == Point(x1, y1)
    decreases Remaining(x1, y1, s)
  {
    if At(s) != Point(x1, y1) {
      StepPreserves(x0, y0, x1, y1, s);
      FromEnds(x0, y0, x1, y1, Step(x0, y0, x1, y1, s));
    }
  }

  lemma {:induction false} FromRanks(x0: int, y0: int, x1: int, y1: int, s: BState)
    requires Reachable(x0, y0, x1, y1, s)
    ensures forall p :: p in BresenhamFrom(x0, y0, x1, y1, s) ==> Rank(x0, y0, p) >= Rank(x0, y0, At(s))
    decreases Remaining(x1, y1, s)
  {
    if At(s) != Point(x1, y1) {
      var t := Step(x0, y0, x1, y1, s);
      StepPreserves(x0, y0, x1, y1, s);
      FromRanks(x0, y0, x1, y1, t);
    }
  }

  lemma {:induction false} FromDistinct(x0: int, y0: int, x1: int, y1: int, s: BState)
    requires Reachable(x0, y0, x1, y1, s)
    ensures Distinct(BresenhamFrom(x0, y0, x1, y1, s))
    decreases Remaining(x1, y1, s)
  {
    if At(s) != Point(x1, y1) {
      var t := Step(x0, y0, x1, y1, s);
      StepPreserves(x0, y0, x1, y1, s);
      FromRanks(x0, y0, x1, y1, t);
      FromDistinct(x0, y0, x1, y1, t);
      var r, rest := BresenhamFrom(x0, y0, x1, y1, s), BresenhamFrom(x0, y0, x1, y1, t);
      assert r == [At(s)] + rest;
      forall i, j | 0 <= i < j < |r| ensures r[i] != r[j] {
        assert r[j] == rest[j - 1] && r[j] in rest;
        if i > 0 {
          assert r[i] == rest[i - 1];
        }
      }
    }
  }

  lemma {:induction false} FromConnected(x0: int, y0: int, x1: int, y1: int, s: BState)
    requires Reachable(x0, y0, x1, y1, s)
    ensures Connected(BresenhamFrom(x0, y0, x1, y1, s))
    decreases Remaining(x1, y1, s)
  {
    if At(s) != Point(x1, y1) {
      var t := Step(x0, y0, x1, y1, s);
      StepPreserves(x0, y0, x1, y1, s);
      FromConnected(x0, y0, x1, y1, t);
      var r, rest := BresenhamFrom(x0, y0, x1, y1, s), BresenhamFrom(x0, y0, x1, y1, t);
      assert r == [At(s)] + rest;
      forall i | 0 <= i < |r| - 1 ensures Adjacent(r[i], r[i + 1]) {
        if i > 0 {
          assert r[i] == rest[i - 1] && r[i + 1] == rest[i];
        }
      }
    }
  }

  lemma {:induction false} FromInBox(x0: int, y0: int, x1: int, y1: int, s: BState)
    requires Reachable(x0, y0, x1, y1, s)
    ensures forall p :: p in BresenhamFrom(x0, y0, x1, y1, s) ==> InBox(x0, y0, x1, y1, p)
    decreases Remaining(x1, y1, s)
  {
    if At(s) != Point(x1, y1) {
      StepPreserves(x0, y0, x1, y1, s);
      FromInBox(x0, y0, x1, y1, Step(x0, y0, x1, y1, s));
    }
  }

  /**
   * bresenhamInt terminates, starts at `(x0,y0)`, ends at `(x1,y1)`, is
   * 8-connected, never repeats a cell and stays in the endpoints' box.
   */
  lemma BresenhamIntSimplePath(x0: int, y0: int, x1: int, y1: int)
    ensures var r := BresenhamIntLine(x0, y0, x1, y1);
      r[0] == Point(x0, y0) && r[|r| - 1] == Point(x1, y1) &&
      Connected(r) && Distinct(r) &&
      forall p :: p in r ==> InBox(x0, y0, x1, y1, p)
  {
    InitReachable(x0, y0, x1, y1);
    var s := Init(x0, y0, x1, y1);
    FromEnds(x0, y0, x1, y1, s);
    FromConnected(x0, y0, x1, y1, s);
    FromDistinct(x0, y0, x1, y1, s);
    FromInBox(x0, y0, x1, y1, s);
  }

  /** bresenhamInt on a single cell returns just that cell. */
  lemma BresenhamIntSinglePoint(x0: int, y0: int)
    ensures BresenhamIntLine(x0, y0, x0, y0) == [Point(x0, y0)]
  {
  }

  /** A shallow line: (0,0) to (3,1) is drawn as (0,0), (1,0), (2,1), (3,1). */
  lemma BresenhamIntShallowExample()
    ensures BresenhamIntLine(0, 0, 3, 1) == [Point(0, 0), Point(1, 0), Point(2, 1), Point(3, 1)]
  {
    var s0 := Init(0, 0, 3, 1);
    assert s0 == BState(0, 0, 2);
    var s1 := Step(0, 0, 3, 1, s0);
    assert s1 == BState(1, 0, 1);
    var s2 := Step(0, 0, 3, 1, s1);
    assert s2 == BState(2, 1, 3);
    var s3 := Step(0, 0, 3, 1, s2);
    assert s3 == BState(3, 1, 2);
    assert BresenhamFrom(0, 0, 3, 1, s3) == [Point(3, 1)];
  }

  /** `bresenhamInt`: emit, stop on the endpoint, else step by the error term. */
  method BresenhamInt(x0: int, y0: int, x1: int, y1: int) returns (pts: seq<Point>)
    ensures pts == BresenhamIntLine(x0, y0, x1, y1)
    ensures pts[0] == Point(x0, y0) && pts[|pts| - 1] == Point(x1, y1)
  {
    pts := [];
    var dx: int := Abs(x1 - x0);
    var dy: int := Abs(y1 - y0);
    var sx := if x0 < x1 then 1 else -1;
    var sy := if y0 < y1 then 1 else -1;
    var err := dx - dy;
    var x := x0;
    var y := y0;
    InitReachable(x0, y0, x1, y1);
    ghost var cur := Init(x0, y0, x1, y1);
    while true
      invariant cur == BState(x, y, err) && Reachable(x0, y0, x1, y1, cur)
      invariant pts + BresenhamFrom(x0, y0, x1, y1, cur) == BresenhamIntLine(x0, y0, x1, y1)
      decreases Remaining(x1, y1, cur)
    {
      FromUnfold(x0, y0, x1, y1, cur);
      pts := pts + [Point(x, y)];
      if x == x1 && y == y1 { break; }
      StepLocals(x0, y0, x1, y1, cur, dx, dy, sx, sy);
      ghost var next := Step(x0, y0, x1, y1, cur);
      var e2 := err * 2;
      if e2 > -dy {
        err := err - dy;
        x := x + sx;
      }
      if e2 < dx {
        err := err + dx;
        y := y + sy;
      }
      cur := next;
    }
    BresenhamIntSimplePath(x0, y0, x1, y1);
  }
}
