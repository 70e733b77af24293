# Line rasterisation and 2-D transforms, modelled in Dafny

This project models the computational core of a small teaching application. The application draws a line between two grid cells with one of five rasterisers, and it builds a 2-D affine transformation from user parameters. The model has five parts:

- **The rasterisers** (`src/utils/algorithms.js`). `computeLine` dispatches a string selector to slope-intercept (basic and modified), DDA, a real-valued Bresenham and the integer Bresenham. Each algorithm has two Dafny forms:
  - a specification function, which gives the whole result in closed form or by recursion over the loop state;
  - a method with the source's loop, proved to return exactly that function's value.
  
  The properties are lemmas about the functions: endpoints, length, the walk along the dominant axis, 8-connectivity, no repeated cell, and the agreement between variants.
- **The affine transform algebra** (`src/utils/transformations.js`): 3x3 matrices, their product (a triple loop), applying a matrix to a point, mapping a list of corners, the composite matrix built from the transform parameters, the reflection about `y = m*x + t`, and the change to canvas coordinates.
- **The grid** (`src/components/Grid.jsx`): the 41x41 cell list, `coordToIndex`, the click state machine, and the effect that recomputes the line.
- **The sidebar** (`src/components/Sidebar.jsx`): the `algos` table, `updateCoord`, `handleGenerate` and `handleReset`.
- **The shared page state** (`src/pages/LinesPage.jsx`): the class `LinesPage.PageState`, whose fields are the page's `pointA`, `pointB`, `linePoints` and `algo`. Its class invariant `Valid` says both selected points, when set, lie on the 41x41 grid; every handler requires and re-establishes it.

Numbers are exact (`int` for grid coordinates, `real` for everything the source computes in floating point). JavaScript's `Math.round(r)` is modelled as `floor(r + 1/2)`, which rounds halves toward +infinity. It does not round them away from zero, so `Math.round(-2.5)` is `-2`.

Behaviour worth noting:

- `slopeModified` walks the dominant axis from its smaller to its larger endpoint, not from `(x0, y0)`. Its first point is therefore the endpoint with the smaller dominant coordinate.
- `slopeModified` never repeats a point, even though it has no de-duplication step. The steep case walks y, so every pushed point has a distinct dominant coordinate.
- The filter in `slopeBasic` removes nothing: the dominant coordinate of every sample is the integer loop counter, so no two samples are equal, whatever the rounding of the other coordinate; this holds in doubles too.
- `dda` and `bresenhamFloat` return the same cells even in doubles: on the dominant axis both add exactly ±1, and on the other both add the same double at every step, because `dy/abs(dx)` and `(dy/dx)*sx` are the same IEEE quotient (negating an operand negates the result exactly). The agreement of `slopeBasic` with `slopeModified` does depend on exact arithmetic, and so do the cells of all four real-valued rasterisers (see "## Left out").
- The page starts with the selector `"slope-intercept"`, which is not one of the five names, so `computeLine` returns no points until another algorithm is picked.

## Model

| member | source | states |
|---|---|---|
| Algorithms.ComputeLine | src/utils/algorithms.js:2-17 | returns the selected algorithm's line; a supported selector gives a connected, repeat-free line, and any other selector gives `[]` |
| Algorithms.EmptyExactlyWhenUnsupported | src/utils/algorithms.js:2-17 | the result is empty if and only if the selector is not one of the five names |
| Algorithms.SupportedLinesAreSimplePaths | src/utils/algorithms.js:2-17 | for each of the five selectors the line is non-empty, contains both endpoints, is 8-connected and has no repeated cell |
| Algorithms.SinglePointLines | src/utils/algorithms.js:2-17 | every algorithm draws identical endpoints as that single cell |
| Algorithms.RealValuedAlgorithmsAgree | src/utils/algorithms.js:19-138 | in exact arithmetic slopeBasic equals slopeModified and dda equals bresenhamFloat |
| SlopeLines.SlopeBasic | src/utils/algorithms.js:19-49 | the method's sampling loops followed by the `seen`-set filter (`FilterRepeats`) return the spec line, with no repeats and one point per dominant coordinate |
| SlopeLines.SlopeBasicSinglePoint | src/utils/algorithms.js:23 | identical endpoints give exactly `[(x0,y0)]` |
| SlopeLines.SlopeBasicWalk | src/utils/algorithms.js:25-48 | the filtered list has `max(abs(dx),abs(dy))+1` points; the i-th has dominant coordinate `min+i`; no point repeats |
| SlopeLines.SlopeBasicFilterKeepsAll | src/utils/algorithms.js:41-48 | the de-duplicating filter keeps every sample, in order |
| SlopeLines.SamplesWalkDominantAxis | src/utils/algorithms.js:25-40 | both variants emit one point per integer of the dominant axis, ascending from the smaller endpoint |
| SlopeLines.SlopeModified | src/utils/algorithms.js:51-72 | the method's loops return the spec line, of length `max(abs(dx),abs(dy))+1`, connected and repeat-free |
| SlopeLines.SlopeModifiedWalk | src/utils/algorithms.js:56-70 | the list walks the dominant axis one unit per point, so it never repeats a point |
| SlopeLines.SlopeModifiedSinglePoint | src/utils/algorithms.js:56-62 | identical endpoints give exactly `[(x0,y0)]` |
| SlopeLines.SlopeLinesEndpoints | src/utils/algorithms.js:25-40 | the first and last points of both variants are the two endpoints |
| SlopeLines.SlopeVariantsAgree | src/utils/algorithms.js:30-60 | `round(m*x + b)` and `round(y0 + m*(x-x0))` give the same line in exact arithmetic |
| SlopeLines.SlopeModifiedConnected | src/utils/algorithms.js:56-70 | consecutive points differ by at most 1 on each axis and are never equal |
| SlopeLines.SlopeBasicConnected | src/utils/algorithms.js:25-48 | the filtered slopeBasic line is 8-connected |
| SlopeLines.SlopeBounded | src/utils/algorithms.js:26 | on the x-dominant branch the slope lies in [-1, 1] |
| SlopeLines.InverseSlopeBounded | src/utils/algorithms.js:34 | on the y-dominant branch the inverse slope lies in [-1, 1] |
| Geometry.FilterRepeats | src/utils/algorithms.js:41-48 | the `seen`-set filter returns the first occurrence of each point in input order (`Dedup`), has no repeats and keeps exactly the input's points |
| Geometry.DedupSameElements | src/utils/algorithms.js:42-48 | the filter keeps exactly the elements of its input |
| Geometry.DedupDistinct | src/utils/algorithms.js:42-48 | the filter's result has no repeats |
| Geometry.DedupOfDistinct | src/utils/algorithms.js:42-48 | on a repeat-free list the filter changes nothing |
| Geometry.Round | src/utils/algorithms.js:30 | `Math.round` returns the integer within one half of its argument, ties going up |
| Dda.Dda | src/utils/algorithms.js:74-94 | the loop returns the spec line: `steps+1` points, first `(x0,y0)`, last `(x1,y1)` |
| Dda.DdaSinglePoint | src/utils/algorithms.js:79-83 | `steps = 0` gives `[(x0,y0)]` |
| Dda.DdaEndpoints | src/utils/algorithms.js:78-92 | `steps+1` points from `(x0,y0)`; in exact arithmetic the last point is `(x1,y1)` |
| Dda.DdaDominantCoordinate | src/utils/algorithms.js:84-91 | the dominant coordinate of point i is exactly `x0 + i*sign(dx)` (or the y analogue) |
| Dda.IncrementsBounded | src/utils/algorithms.js:84-85 | both increments lie in [-1, 1] |
| Dda.DdaConnected | src/utils/algorithms.js:88-92 | consecutive points are 8-neighbours |
| Dda.DdaDistinct | src/utils/algorithms.js:88-92 | no point repeats |
| BresenhamFloat.BresenhamFloat | src/utils/algorithms.js:96-138 | the `while (true)` loops return the spec line: `max(abs(dx),abs(dy))+1` points from `(x0,y0)` to `(x1,y1)` |
| BresenhamFloat.BresenhamFloatSinglePoint | src/utils/algorithms.js:109-112 | identical endpoints give `[(x0,y0)]` |
| BresenhamFloat.BresenhamFloatWalk | src/utils/algorithms.js:114-136 | the dominant coordinate moves by the unit sign step at each point and stops exactly on the endpoint's, after `abs(d)+1` points |
| BresenhamFloat.UnitSteps | src/utils/algorithms.js:121-122 | `i` unit steps reach `d` exactly when `i = abs(d)`, so the loop's exit test fires |
| BresenhamFloat.BresenhamFloatMatchesDda | src/utils/algorithms.js:96-138 | in exact arithmetic the line equals dda's |
| BresenhamFloat.BresenhamFloatSimplePath | src/utils/algorithms.js:96-138 | starts at `(x0,y0)`, ends at `(x1,y1)`, 8-connected, no repeats |
| BresenhamInt.BresenhamInt | src/utils/algorithms.js:140-163 | the loop terminates and returns the spec line, starting at `(x0,y0)` and ending at `(x1,y1)` |
| BresenhamInt.StepGuards | src/utils/algorithms.js:152-160 | away from the endpoint at least one of the two error tests fires, and neither fires on an axis already at the endpoint |
| BresenhamInt.StepPreserves | src/utils/algorithms.js:149-161 | an iteration keeps the error invariant `err = dx*(cy+1) - dy*(cx+1)`, moves to an 8-neighbour and strictly nearer the endpoint |
| BresenhamInt.FromEnds | src/utils/algorithms.js:149-161 | from any reachable state the emitted cells start at that state and end on `(x1,y1)` |
| BresenhamInt.FromConnected | src/utils/algorithms.js:149-161 | consecutive cells are 8-neighbours |
| BresenhamInt.FromDistinct | src/utils/algorithms.js:149-161 | the distance from `(x0,y0)` strictly grows, so no cell repeats |
| BresenhamInt.FromInBox | src/utils/algorithms.js:149-161 | every cell lies in the box spanned by the endpoints |
| BresenhamInt.BresenhamIntSimplePath | src/utils/algorithms.js:140-163 | first `(x0,y0)`, last `(x1,y1)`, 8-connected, repeat-free, inside the endpoints' box |
| BresenhamInt.BresenhamIntSinglePoint | src/utils/algorithms.js:150-151 | identical endpoints give `[(x0,y0)]` |
| BresenhamInt.BresenhamIntShallowExample | src/utils/algorithms.js:140-163 | (0,0) to (3,1) is (0,0), (1,0), (2,1), (3,1) |
| Transformations.MultiplyMatrices | src/utils/transformations.js:7-21 | entry `[i][j]` of the triple loop's result is the sum over k of `a[i][k]*b[k][j]` |
| Transformations.IdentityUnit | src/utils/transformations.js:54-66 | the identity is a left and right unit of the product |
| Transformations.MulAffine | src/utils/transformations.js:7-21 | the product of two affine matrices is affine |
| Transformations.TransformMul | src/utils/transformations.js:29-33 | applying `a*b` (b affine) is applying `b` and then `a` |
| Transformations.TransformPoint | src/utils/transformations.js:29-33 | the image of `(x, y)` is `(m00·x + m01·y + m02, m10·x + m11·y + m12)`, i.e. the homogeneous point `(x, y, 1)` mapped by `m` (the last column of `m` times the translation to the point); row 2 is never read (TransformIgnoresLastRow) and products compose (TransformMul) |
| Transformations.TransformIgnoresLastRow | src/utils/transformations.js:29-33 | `transformPoint` never reads row 2 |
| Transformations.TransformCorners | src/utils/transformations.js:132-134 | the result has the corners' length, and element i is `transformPoint(corners[i])` |
| Transformations.TransformCornersMul | src/utils/transformations.js:132-134 | mapping corners through `b` and then `a` is mapping them through `a*b` |
| Transformations.ToCanvasCoords | src/utils/transformations.js:117-124 | the canvas point is the world point shifted by half the size, with y negated |
| Transformations.CanvasRoundTrip | src/utils/transformations.js:117-124 | `x = cx - size/2`, `y = size/2 - cy` inverts it both ways; the origin goes to the centre |
| Transformations.GetTransformationMatrix | src/utils/transformations.js:40-109 | the straight-line multiplications return the composite, which is affine |
| Transformations.CompositeIsProduct | src/utils/transformations.js:54-106 | the composite is `T*R*S*Sh`, times the reflection only when it is enabled |
| Transformations.CompositeAppliesInOrder | src/utils/transformations.js:60-106 | the composite applies reflection (if enabled), shear, scale, rotation, translation, in that order |
| Transformations.DefaultsGiveIdentity | src/utils/transformations.js:41-58 | the default parameters give the identity |
| Transformations.TranslationMovesOrigin | src/utils/transformations.js:61-66 | translation alone maps (0,0) to `(dx, dy)` |
| Transformations.QuarterTurn | src/utils/transformations.js:69-75 | a 90 degree turn maps (1,0) to (0,1) counter-clockwise, and to (0,-1) with `ccw` false |
| Transformations.RotationAndScaleDoNotCommute | src/utils/transformations.js:75-83 | the fixed order matters: rotation and a non-uniform scale do not commute |
| Transformations.ReflectionDenominatorPositive | src/utils/transformations.js:99 | `m*m + 1 > 0` |
| Transformations.ReflectionInvolution | src/utils/transformations.js:96-105 | the reflection matrix squared is the identity |
| Transformations.ReflectionFixesLine | src/utils/transformations.js:96-105 | every point of `y = m*x + t` is fixed |
| Transformations.ReflectionExample | src/utils/transformations.js:96-105 | with m = 1, t = 0, (2,0) maps to (0,2) |
| Grid.CoordToIndex | src/components/Grid.jsx:6-9 | `ix = x+10`, `iy = 10-y`, so the cell is recovered from its index by `IndexToCoord`; it covers only `-10..10` (CoordToIndexRoundTrip, CoordToIndexRange) |
| Grid.CoordToIndexRoundTrip | src/components/Grid.jsx:6-9 | `ix = x+10`, `iy = 10-y` is inverted by `x = ix-10`, `y = 10-iy`, both ways |
| Grid.CoordToIndexRange | src/components/Grid.jsx:6-9 | the cells -10..10 are exactly those with indices 0..20; the origin maps to (10,10) |
| Grid.CoordToIndexMissesCorner | src/components/Grid.jsx:4-9 | the grid's corner (-20,20) maps outside 0..40 |
| Grid.GridIndexRange | src/components/Grid.jsx:4-9 | with offset 20, the grid's cells are exactly those with indices 0..40 |
| Grid.EnumerateCells | src/components/Grid.jsx:22-29 | the nested loops produce the row-major cell list |
| Grid.AllCellsExactlyOnce | src/components/Grid.jsx:22-29 | 41*41 cells from (-20,20); each cell of -20..20 squared appears exactly once, and nothing else |
| Grid.CellIndexInRange | src/components/Grid.jsx:23-28 | cell (x,y) sits at position `(20-y)*41 + (x+20)` |
| LinesPage.PageState.constructor | src/pages/LinesPage.jsx:7-10 | no points, no line, selector `"slope-intercept"` |
| LinesPage.InitialSelectorDrawsNothing | src/pages/LinesPage.jsx:10 | the initial selector is not supported, so it yields `[]` |
| LinesPage.PageState.HandleClick | src/components/Grid.jsx:31-45 | the three-state click machine: set A and clear the line; set B; or reset to A only; a click on a grid cell keeps both points on the grid |
| LinesPage.PageState.RecomputeLine | src/components/Grid.jsx:47-52 | with both points set the line becomes `computeLine(A, B, algo)`; otherwise nothing changes |
| LinesPage.PageState.HandleGenerate | src/components/Sidebar.jsx:25-29 | does nothing unless both points are set; otherwise recomputes the line |
| LinesPage.PageState.HandleReset | src/components/Sidebar.jsx:31-35 | clears both points and the line |
| LinesPage.PageState.UpdateCoord | src/components/Sidebar.jsx:37-43 | NaN or out-of-range input changes nothing; otherwise only the named axis of the named point changes, and an unset point starts from (0,0); accepted values keep both points on the grid |
| LinesPage.WithCoord | src/components/Sidebar.jsx:41-42 | the new point takes `num` on the named axis and keeps the other coordinate of the previous point, or 0 |
| LinesPage.WithCoordStaysOnGrid | src/components/Sidebar.jsx:39-42 | an accepted value keeps the point on the grid |
| LinesPage.PageState.SelectAlgorithm | src/components/Sidebar.jsx:53 | the selector's change stores the new value and nothing else |
| Sidebar.AlgosAreTheSupportedSelectors | src/components/Sidebar.jsx:4-10 | the table's values are exactly the five names `computeLine` dispatches on, each once |
| Sidebar.EveryChoiceDraws | src/components/Sidebar.jsx:4-10 | every choice in the table draws a non-empty line through both endpoints |

## Left out

- `src/utils/fractals.js` is not part of this model. Its Julia and Mandelbrot sets are floating-point escape-time loops, its IFS draws from `Math.random`, and every routine exists only to issue canvas calls.
- `drawParallelogram` (`src/utils/transformations.js:140-222`) is not modelled. It only issues canvas drawing calls.
- Trigonometry and degree-to-radian conversion are not modelled. The cosine and sine of `angle` and the tangents of the shear angles are real inputs of `Transformations.TransformParams`. Clockwise rotation negates the angle, which keeps the cosine and negates the sine.
- IEEE-754 rounding is not modelled: every real computation is exact. These facts hold only in exact arithmetic, not bit-for-bit in doubles:
  - dda and bresenhamFloat landing exactly on `(x1, y1)`;
  - the two slope variants agreeing;
  - the reflection being an involution.
- `Dda.Dda`: its exact-real line `DdaLine` can differ from the program's cells wherever an accumulated coordinate lands within rounding error of a half. For example, for `(0,0)` to `(-20,-9)` the doubles reach `y = -4.500000000000001` at step 10, which `Math.round` sends to -5, while the exact value -4.5 rounds to -4.
- `BresenhamFloat.BresenhamFloat`: the same applies, since it adds the same increments as `dda`.
- `SlopeLines.SlopeBasic`: `m*x + b` is evaluated in doubles, so a sample whose exact value is a half can round to the neighbouring cell. For example, for `(-20,-20)` to `(4,2)` the program's line differs from `SlopeBasicLine`.
- `SlopeLines.SlopeModified`: the same applies to `y0 + m*(x - x0)`. For example, for `(-20,-15)` to `(2,0)` the program's line differs from `SlopeModifiedLine`.
- Integers are unbounded. Grid coordinates are small, so JavaScript's 2^53 limit never matters.
- React rendering, hook scheduling and routing are not modelled. `LinesPage.PageState.RecomputeLine` is the effect's body; React runs it after each change to A, B or the selector, and the model leaves that call to the caller.
- The page's other state is not modelled: colours, grid range and the show-line toggles.
- The rendering helpers `isSelected` and `lineSet` are not modelled.
- `parseInt` is not modelled. `UpdateCoord` receives its outcome as an `Option<int>`, with `None` for NaN.
- The `seen` set of `slopeBasic` is keyed by the string `"x,y"`; the model keys it by the point itself. Both identify the same integer points.
- The array-of-arrays matrices, and the `filter`/`map` calls, are modelled as values, so aliasing between rows is not captured. No caller shares them.
- `BresenhamInt.BresenhamInt` is proved to terminate between the endpoints, but not to have exactly `max(abs(dx), abs(dy)) + 1` points.

## Findings

| source | as written | input that shows it | evidently intended | confidence | as-written member | corrected member |
|---|---|---|---|---|---|---|
| src/components/Grid.jsx:6-9 | `coordToIndex` offsets by 10, so it covers the cells -10..10 | the top-left cell (-20, 20) of the 41x41 grid (`SIZE = 41`, line 4) maps to index (-10, -10) | offset 20, mapping -20..20 onto 0..40 like the cell enumeration; the function is not called anywhere, so nothing visible breaks | medium; not executed | Grid.CoordToIndexMissesCorner | Grid.GridIndexRange |
