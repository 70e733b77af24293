/**
 * The 2-D affine transform algebra: 3x3 homogeneous matrices, their
 * product, applying one to a point, the composite built from the transform
 * parameters, and the change to canvas coordinates. Numbers are exact reals;
 * the cosine, sine and tangent values that the source computes from degrees
 * are inputs here.
 */
module Transformations {

  /** A point (or vector) with real coordinates. */
  datatype Vec = Vec(x: real, y: real)

  /** A 3x3 matrix as a list of three rows of three entries. */
  type Matrix = m: seq<seq<real>> | |m| == 3 && |m[0]| == 3 && |m[1]| == 3 && |m[2]| == 3
    witness [[0.0, 0.0, 0.0], [0.0, 0.0, 0.0], [0.0, 0.0, 0.0]]

  const Zero: Matrix := [[0.0, 0.0, 0.0], [0.0, 0.0, 0.0], [0.0, 0.0, 0.0]]
  const Identity: Matrix := [[1.0, 0.0, 0.0], [0.0, 1.0, 0.0], [0.0, 0.0, 1.0]]

  /** An affine matrix: its last row is `[0, 0, 1]`. */
  predicate IsAffine(m: Matrix)
  {
    m[2] == [0.0, 0.0, 1.0]
  }

  /** `a[i][0]*b[0][j] + ... + a[i][k-1]*b[k-1][j]`, accumulated left to right. */
  function PartialDot(a: Matrix, b: Matrix, i: int, j: int, k: int): real
    requires 0 <= i < 3 && 0 <= j < 3 && 0 <= k <= 3
  {
    if k == 0 then 0.0 else PartialDot(a, b, i, j, k - 1) + a[i][k - 1] * b[k - 1][j]
  }

  /** Row `i` of `a` times column `j` of `b`. */
  function Dot(a: Matrix, b: Matrix, i: int, j: int): real
    requires 0 <= i < 3 && 0 <= j < 3
  {
    a[i][0] * b[0][j] + a[i][1] * b[1][j] + a[i][2] * b[2][j]
  }

  /** Accumulating all three terms gives the dot product. */
  lemma FullDot(a: Matrix, b: Matrix, i: int, j: int)
    requires 0 <= i < 3 && 0 <= j < 3
    ensures PartialDot(a, b, i, j, 3) == Dot(a, b, i, j)
  {
    assert PartialDot(a, b, i, j, 1) == a[i][0] * b[0][j];
    assert PartialDot(a, b, i, j, 2) == a[i][0] * b[0][j] + a[i][1] * b[1][j];
  }

  /** The matrix product. */
  function Mul(a: Matrix, b: Matrix): Matrix
  {
    [[Dot(a, b, 0, 0), Dot(a, b, 0, 1), Dot(a, b, 0, 2)],
     [Dot(a, b, 1, 0), Dot(a, b, 1, 1), Dot(a, b, 1, 2)],
     [Dot(a, b, 2, 0), Dot(a, b, 2, 1), Dot(a, b, 2, 2)]]
  }

  /** Two matrices with the same entries are the same matrix. */
  lemma MatrixExt(a: Matrix, b: Matrix)
    requires forall i, j :: 0 <= i < 3 && 0 <= j < 3 ==> a[i][j] == b[i][j]
    ensures a == b
  {
    assert a[0] == b[0] by { assert a[0][0] == b[0][0] && a[0][1] == b[0][1] && a[0][2] == b[0][2]; }
    assert a[1] == b[1] by { assert a[1][0] == b[1][0] && a[1][1] == b[1][1] && a[1][2] == b[1][2]; }
    assert a[2] == b[2] by { assert a[2][0] == b[2][0] && a[2][1] == b[2][1] && a[2][2] == b[2][2]; }
  }

  /** The identity matrix is a unit of the product on both sides. */
  lemma IdentityUnit(m: Matrix)
    ensures Mul(Identity, m) == m
    ensures Mul(m, Identity) == m
  {
    MatrixExt(Mul(Identity, m), m);
    MatrixExt(Mul(m, Identity), m);
  }

  /** The product of two affine matrices is affine. */
  lemma MulAffine(a: Matrix, b: Matrix)
    requires IsAffine(a) && IsAffine(b)
    ensures IsAffine(Mul(a, b))
  {
    assert Mul(a, b)[2] == [Dot(a, b, 2, 0), Dot(a, b, 2, 1), Dot(a, b, 2, 2)];
  }

  /**
   * `multiplyMatrices`: a zero matrix filled entry by entry, row-major, each
   * entry accumulated over `k`.
   */
  method MultiplyMatrices(a: Matrix, b: Matrix) returns (result: Matrix)
    ensures result == Mul(a, b)
    ensures forall i, j :: 0 <= i < 3 && 0 <= j < 3 ==>
      result[i][j] == a[i][0] * b[0][j] + a[i][1] * b[1][j] + a[i][2] * b[2][j]
  {
    result := Zero;
    for i := 0 to 3
      invariant forall r, c :: 0 <= r < 3 && 0 <= c < 3 ==>
        result[r][c] == if r < i then Dot(a, b, r, c) else 0.0
    {
      for j := 0 to 3
        invariant forall r, c :: 0 <= r < 3 && 0 <= c < 3 ==>
          result[r][c] == if r < i || (r == i && c < j) then Dot(a, b, r, c) else 0.0
      {
        for k := 0 to 3
          invariant forall r, c :: 0 <= r < 3 && 0 <= c < 3 ==>
            result[r][c] ==
              if r < i || (r == i && c < j) then Dot(a, b, r, c)
              else if r == i && c == j then PartialDot(a, b, i, j, k)
              else 0.0
        {
          result := result[i := result[i][j := result[i][j] + a[i][k] * b[k][j]]];
        }
        FullDot(a, b, i, j);
      }
    }
    MatrixExt(result, Mul(a, b));
  }

  /**
   * `transformPoint`: the first two rows applied to `(x, y, 1)`. In
   * homogeneous terms the image of `p` is the last column of `m` times the
   * translation to `p`, the frame whose origin is `p`.
   */
  function TransformPoint(p: Vec, m: Matrix): (q: Vec)
    ensures q.x == Dot(m, Translation(p.x, p.y), 0, 2)
    ensures q.y == Dot(m, Translation(p.x, p.y), 1, 2)
  {
    Vec(m[0][0] * p.x + m[0][1] * p.y + m[0][2],
        m[1][0] * p.x + m[1][1] * p.y + m[1][2])
  }

  /** The last row of the matrix is never read. */
  lemma TransformIgnoresLastRow(p: Vec, m: Matrix, row: seq<real>)
    requires |row| == 3
    ensures TransformPoint(p, m[2 := row]) == TransformPoint(p, m)
  {
  }

  /**
   * Applying a product whose right factor is affine is applying the right
   * factor first and then the left one.
   */
  lemma TransformMul(p: Vec, a: Matrix, b: Matrix)
    requires IsAffine(b)
    ensures TransformPoint(p, Mul(a, b)) == TransformPoint(TransformPoint(p, b), a)
  {
    var q := TransformPoint(p, b);
    assert TransformPoint(p, Mul(a, b)).x == a[0][0] * q.x + a[0][1] * q.y + a[0][2];
    assert TransformPoint(p, Mul(a, b)).y == a[1][0] * q.x + a[1][1] * q.y + a[1][2];
  }

  /** `transformCorners`: each corner mapped through the matrix, in order. */
  function TransformCorners(corners: seq<Vec>, m: Matrix): (r: seq<Vec>)
    ensures |r| == |corners|
    ensures forall i :: 0 <= i < |r| ==> r[i] == TransformPoint(corners[i], m)
  {
    if |corners| == 0 then []
    else [TransformPoint(corners[0], m)] + TransformCorners(corners[1..], m)
  }

  /**
   * Mapping the corners through an affine `b` and then through `a` is
   * mapping them through the product.
   */
  lemma TransformCornersMul(corners: seq<Vec>, a: Matrix, b: Matrix)
    requires IsAffine(b)
    ensures TransformCorners(TransformCorners(corners, b), a) == TransformCorners(corners, Mul(a, b))
  {
    var l, r := TransformCorners(TransformCorners(corners, b), a), TransformCorners(corners, Mul(a, b));
    forall i | 0 <= i < |l| ensures l[i] == r[i] {
      TransformMul(corners[i], a, b);
    }
  }

  /** `toCanvasCoords`: move the origin to the canvas centre and flip y. */
  function ToCanvasCoords(p: Vec, canvasSize: real): (c: Vec)
    ensures c.x - canvasSize / 2.0 == p.x && canvasSize / 2.0 - c.y == p.y
  {
    Vec(canvasSize / 2.0 + p.x, canvasSize / 2.0 - p.y)
  }

  /** The inverse of `toCanvasCoords`. */
  function FromCanvasCoords(c: Vec, canvasSize: real): Vec
  {
    Vec(c.x - canvasSize / 2.0, canvasSize / 2.0 - c.y)
  }

  /** The two conversions undo each other; the world origin is the canvas centre. */
  lemma CanvasRoundTrip(p: Vec, c: Vec, canvasSize: real)
    ensures FromCanvasCoords(ToCanvasCoords(p, canvasSize), canvasSize) == p
    ensures ToCanvasCoords(FromCanvasCoords(c, canvasSize), canvasSize) == c
    ensures ToCanvasCoords(Vec(0.0, 0.0), canvasSize) == Vec(canvasSize / 2.0, canvasSize / 2.0)
  {
  }

  /**
   * The parameters of `getTransformationMatrix`. `cosAngle` and `sinAngle`
   * are the cosine and sine of `angle` (degrees); `tanShx` and `tanShy` the
   * tangents of the shear angles.
   */
  datatype TransformParams = TransformParams(
    dx: real, dy: real,
    cosAngle: real, sinAngle: real, ccw: bool,
    sx: real, sy: real,
    tanShx: real, tanShy: real,
    reflectionEnabled: bool, reflectionM: real, reflectionT: real)

  /** The defaults: no translation, angle 0, counter-clockwise, unit scale, no shear, no reflection about `y = x`. */
  const Defaults := TransformParams(0.0, 0.0, 1.0, 0.0, true, 1.0, 1.0, 0.0, 0.0, false, 1.0, 0.0)

  function Translation(dx: real, dy: real): (m: Matrix)
  {
    [[1.0, 0.0, dx], [0.0, 1.0, dy], [0.0, 0.0, 1.0]]
  }

  /** Rotation by an angle with cosine `c` and sine `s`. */
  function Rotation(c: real, s: real): Matrix
  {
    [[c, -s, 0.0], [s, c, 0.0], [0.0, 0.0, 1.0]]
  }

  function Scale(sx: real, sy: real): Matrix
  {
    [[sx, 0.0, 0.0], [0.0, sy, 0.0], [0.0, 0.0, 1.0]]
  }

  function Shear(tanShx: real, tanShy: real): Matrix
  {
    [[1.0, tanShx, 0.0], [tanShy, 1.0, 0.0], [0.0, 0.0, 1.0]]
  }

  /** Reflection about the line `y = m*x + t`. */
  function Reflection(m: real, t: real): Matrix
  {
    var denom := m * m + 1.0;
    [[(1.0 - m * m) / denom, (2.0 * m) / denom, (-2.0 * m * t) / denom],
     [(2.0 * m) / denom, (m * m - 1.0) / denom, (2.0 * t) / denom],
     [0.0, 0.0, 1.0]]
  }

  /** The rotation actually applied: clockwise negates the angle, so only the sine flips. */
  function RotationOf(p: TransformParams): Matrix
  {
    Rotation(p.cosAngle, if p.ccw then p.sinAngle else -p.sinAngle)
  }

  /** The matrix `getTransformationMatrix` returns. */
  function Composite(p: TransformParams): Matrix
  {
    var m := Mul(Identity, Translation(p.dx, p.dy));
    var m := Mul(m, RotationOf(p));
    var m := Mul(m, Scale(p.sx, p.sy));
    var m := Mul(m, Shear(p.tanShx, p.tanShy));
    if p.reflectionEnabled then Mul(m, Reflection(p.reflectionM, p.reflectionT)) else m
  }

  /** `getTransformationMatrix`: right-multiply each factor onto the identity in turn. */
  method GetTransformationMatrix(p: TransformParams) returns (matrix: Matrix)
    ensures matrix == Composite(p)
    ensures IsAffine(matrix)
  {
    matrix := Identity;
    matrix := MultiplyMatrices(matrix, Translation(p.dx, p.dy));
    var rotation := Rotation(p.cosAngle, if p.ccw then p.sinAngle else -p.sinAngle);
    matrix := MultiplyMatrices(matrix, rotation);
    matrix := MultiplyMatrices(matrix, Scale(p.sx, p.sy));
    matrix := MultiplyMatrices(matrix, Shear(p.tanShx, p.tanShy));
    if p.reflectionEnabled {
      var m := p.reflectionM;
      var t := p.reflectionT;
      matrix := MultiplyMatrices(matrix, Reflection(m, t));
    }
    CompositeIsAffine(p);
  }

  lemma CompositeIsAffine(p: TransformParams)
    ensures IsAffine(Composite(p))
  {
    var m1 := Mul(Identity, Translation(p.dx, p.dy));
    MulAffine(Identity, Translation(p.dx, p.dy));
    var m2 := Mul(m1, RotationOf(p));
    MulAffine(m1, RotationOf(p));
    var m3 := Mul(m2, Scale(p.sx, p.sy));
    MulAffine(m2, Scale(p.sx, p.sy));
    var m4 := Mul(m3, Shear(p.tanShx, p.tanShy));
    MulAffine(m3, Shear(p.tanShx, p.tanShy));
    MulAffine(m4, Reflection(p.reflectionM, p.reflectionT));
  }

  /**
   * Starting from the identity changes nothing: the composite is
   * `T*R*S*Sh`, times the reflection only when it is enabled.
   */
  lemma CompositeIsProduct(p: TransformParams)
    ensures var base := Mul(Mul(Mul(Translation(p.dx, p.dy), RotationOf(p)), Scale(p.sx, p.sy)), Shear(p.tanShx, p.tanShy));
      Composite(p) == if p.reflectionEnabled then Mul(base, Reflection(p.reflectionM, p.reflectionT)) else base
  {
    IdentityUnit(Translation(p.dx, p.dy));
  }

  /**
   * The composite applies its factors right to left: the reflection (when
   * enabled) first, then shear, scale, rotation and finally translation.
   */
  lemma CompositeAppliesInOrder(p: TransformParams, q: Vec)
    ensures var reflected := if p.reflectionEnabled then TransformPoint(q, Reflection(p.reflectionM, p.reflectionT)) else q;
      TransformPoint(q, Composite(p)) ==
      TransformPoint(TransformPoint(TransformPoint(TransformPoint(reflected,
        Shear(p.tanShx, p.tanShy)), Scale(p.sx, p.sy)), RotationOf(p)), Translation(p.dx, p.dy))
  {
    var m1 := Mul(Identity, Translation(p.dx, p.dy));
    var m2 := Mul(m1, RotationOf(p));
    var m3 := Mul(m2, Scale(p.sx, p.sy));
    var m4 := Mul(m3, Shear(p.tanShx, p.tanShy));
    IdentityUnit(Translation(p.dx, p.dy));
    var reflected := if p.reflectionEnabled then TransformPoint(q, Reflection(p.reflectionM, p.reflectionT)) else q;
    if p.reflectionEnabled {
      TransformMul(q, m4, Reflection(p.reflectionM, p.reflectionT));
    }
    TransformMul(reflected, m3, Shear(p.tanShx, p.tanShy));
    var q1 := TransformPoint(reflected, Shear(p.tanShx, p.tanShy));
    TransformMul(q1, m2, Scale(p.sx, p.sy));
    var q2 := TransformPoint(q1, Scale(p.sx, p.sy));
    TransformMul(q2, m1, RotationOf(p));
  }

  /** With every parameter at its default the composite is the identity. */
  lemma DefaultsGiveIdentity()
    ensures Composite(Defaults) == Identity
  {
    IdentityUnit(Identity);
    assert Translation(0.0, 0.0) == Identity;
    assert RotationOf(Defaults) == Identity;
    assert Scale(1.0, 1.0) == Identity;
    assert Shear(0.0, 0.0) == Identity;
  }

  /** Translation alone sends the origin to `(dx, dy)`. */
  lemma TranslationMovesOrigin(dx: real, dy: real)
    ensures TransformPoint(Vec(0.0, 0.0), Composite(Defaults.(dx := dx, dy := dy))) == Vec(dx, dy)
  {
    var p := Defaults.(dx := dx, dy := dy);
    CompositeAppliesInOrder(p, Vec(0.0, 0.0));
  }

  /** A quarter turn counter-clockwise sends `(1, 0)` to `(0, 1)`; clockwise to `(0, -1)`. */
  lemma QuarterTurn()
    ensures TransformPoint(Vec(1.0, 0.0), Composite(Defaults.(cosAngle := 0.0, sinAngle := 1.0))) == Vec(0.0, 1.0)
    ensures TransformPoint(Vec(1.0, 0.0), Composite(Defaults.(cosAngle := 0.0, sinAngle := 1.0, ccw := false))) == Vec(0.0, -1.0)
  {
    CompositeAppliesInOrder(Defaults.(cosAngle := 0.0, sinAngle := 1.0), Vec(1.0, 0.0));
    CompositeAppliesInOrder(Defaults.(cosAngle := 0.0, sinAngle := 1.0, ccw := false), Vec(1.0, 0.0));
  }

  /** Order matters: a quarter turn and a non-uniform scale do not commute. */
  lemma RotationAndScaleDoNotCommute()
    ensures Mul(Rotation(0.0, 1.0), Scale(2.0, 1.0)) != Mul(Scale(2.0, 1.0), Rotation(0.0, 1.0))
  {
    assert Mul(Rotation(0.0, 1.0), Scale(2.0, 1.0))[1][0] == 2.0;
    assert Mul(Scale(2.0, 1.0), Rotation(0.0, 1.0))[1][0] == 1.0;
  }

  /** The reflection denominator `m*m + 1` is positive. */
  lemma ReflectionDenominatorPositive(m: real)
    ensures m * m + 1.0 > 0.0
  {
  }

  /**
   * With `a = (1-m*m)/d`, `b = 2m/d` and `c = 2t/d` (`d = m*m + 1`) the
   * reflection is `[[a, b, -b*t], [b, -a, c], [0, 0, 1]]`, where
   * `a*a + b*b = 1` and `c = t*(1 + a)`.
   */
  lemma ReflectionEntries(m: real, t: real)
    ensures var d := m * m + 1.0;
      var a, b := (1.0 - m * m) / d, (2.0 * m) / d;
      a * a + b * b == 1.0 && (2.0 * t) / d == t * (1.0 + a) &&
      (-2.0 * m * t) / d == -b * t && (m * m - 1.0) / d == -a
  {
    var d := m * m + 1.0;
    var a, b := (1.0 - m * m) / d, (2.0 * m) / d;
    assert a * d == 1.0 - m * m;
    assert b * d == 2.0 * m;
    assert (a * a + b * b) * (d * d) == (a * d) * (a * d) + (b * d) * (b * d);
    assert (1.0 - m * m) * (1.0 - m * m) + (2.0 * m) * (2.0 * m) == d * d;
    assert (1.0 + a) * d == 2.0;
  }

  /** Reflecting twice about the same line is the identity. */
  lemma ReflectionInvolution(m: real, t: real)
    ensures Mul(Reflection(m, t), Reflection(m, t)) == Identity
  {
    ReflectionEntries(m, t);
    var r := Reflection(m, t);
    var d := m * m + 1.0;
    var a, b := (1.0 - m * m) / d, (2.0 * m) / d;
    assert r[0][0] == a;
    assert r[0][1] == b;
    assert r[0][2] == -b * t;
    assert r[0] == [a, b, -b * t];
    assert r[1][0] == b;
    assert r[1][1] == -a;
    assert r[1][2] == t * (1.0 + a);
    assert r[1] == [b, -a, t * (1.0 + a)];
    assert r == [[a, b, -b * t], [b, -a, t * (1.0 + a)], [0.0, 0.0, 1.0]];
    assert -a * b * t + b * (t * (1.0 + a)) - b * t == 0.0;
    assert b * (-b * t) - a * (t * (1.0 + a)) + t * (1.0 + a) == t * (1.0 - a * a - b * b);
    MatrixExt(Mul(r, r), Identity);
  }

  /** The reflection fixes every point of the line `y = m*x + t`. */
  lemma ReflectionFixesLine(m: real, t: real, x: real)
    ensures TransformPoint(Vec(x, m * x + t), Reflection(m, t)) == Vec(x, m * x + t)
  {
    ReflectionEntries(m, t);
    var d := m * m + 1.0;
    var a, b := (1.0 - m * m) / d, (2.0 * m) / d;
    assert a + b * m == 1.0 by {
      assert (a + b * m) * d == 1.0 - m * m + 2.0 * m * m;
    }
    assert b - a * m == m by {
      assert (b - a * m) * d == 2.0 * m - m * (1.0 - m * m);
    }
    var y := m * x + t;
    assert a * x + b * y + (-b * t) == (a + b * m) * x;
    assert b * x + (-a) * y + t * (1.0 + a) == (b - a * m) * x + t;
  }

  /** Reflecting about `y = x` sends `(2, 0)` to `(0, 2)`. */
  lemma ReflectionExample()
    ensures TransformPoint(Vec(2.0, 0.0), Reflection(1.0, 0.0)) == Vec(0.0, 2.0)
  {
  }
}
