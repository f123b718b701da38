/**
 * The length-contraction transform of the artwork plane. Rotations about
 * the view axis and a scale along x leave the z row and column of the
 * mesh's 4x4 matrix untouched, so the model keeps the 2x2 x/y block. An
 * angle enters only through its cosine and sine: the unit direction of
 * motion `(dx, dy)` is `(cos θ, sin θ)` for `θ = atan2(dy, dx)`.
 */
module Transform {

  datatype Vec2 = Vec2(x: real, y: real)

  /** The matrix [[a, b], [c, d]]. */
  datatype Mat2 = Mat2(a: real, b: real, c: real, d: real)

  const Identity: Mat2 := Mat2(1.0, 0.0, 0.0, 1.0)

  /** The matrix product `m * n`. */
  function Mul(m: Mat2, n: Mat2): Mat2 {
    Mat2(m.a * n.a + m.b * n.c, m.a * n.b + m.b * n.d,
         m.c * n.a + m.d * n.c, m.c * n.b + m.d * n.d)
  }

  /** Multiplying onto the identity changes nothing. */
  lemma MulIdentity(m: Mat2)
    ensures Mul(m, Identity) == m && Mul(Identity, m) == m
  {
  }

  /** The image of `v` under `m`. */
  function Apply(m: Mat2, v: Vec2): Vec2 {
    Vec2(m.a * v.x + m.b * v.y, m.c * v.x + m.d * v.y)
  }

  /** `v` stretched by the factor `k`. */
  function Scale(k: real, v: Vec2): Vec2 {
    Vec2(k * v.x, k * v.y)
  }

  function Dot(u: Vec2, v: Vec2): real {
    u.x * v.x + u.y * v.y
  }

  predicate IsUnit(v: Vec2) {
    Dot(v, v) == 1.0
  }

  /** The direction at a right angle to `v`, counter-clockwise. */
  function Perpendicular(v: Vec2): Vec2 {
    Vec2(-v.y, v.x)
  }

  /** `makeRotationZ(θ)`, given `cos θ` and `sin θ`. */
  function RotationZ(cos: real, sin: real): Mat2 {
    Mat2(cos, -sin, sin, cos)
  }

  /** `makeScale(k, 1, 1)`. */
  function ScaleX(k: real): Mat2 {
    Mat2(k, 0.0, 0.0, 1.0)
  }

  /**
   * The contraction by `k` along the unit direction `d`, in closed form:
   * `k` along `d`, 1 across it.
   */
  function Contraction(d: Vec2, k: real): Mat2 {
    Mat2(k * d.x * d.x + d.y * d.y, (k - 1.0) * d.x * d.y,
         (k - 1.0) * d.x * d.y, k * d.y * d.y + d.x * d.x)
  }

  /** Rotating back after scaling x by `k`. */
  lemma RotateBackScaled(c: real, s: real, k: real)
    ensures Mul(RotationZ(c, s), ScaleX(k)) == Mat2(c * k, -s, s * k, c)
  {
  }

  /** Then rotating the motion axis onto x first gives the closed form. */
  lemma ScaledRotateToX(c: real, s: real, k: real)
    ensures Mul(Mat2(c * k, -s, s * k, c), RotationZ(c, -s)) == Contraction(Vec2(c, s), k)
  {
    var r := Mul(Mat2(c * k, -s, s * k, c), RotationZ(c, -s));
    assert r.a == c * k * c + -s * -s;
    assert r.b == c * k * s + -s * c;
    assert r.c == s * k * c + c * -s;
    assert r.d == s * k * s + c * c;
  }

  /**
   * `new Matrix4().multiply(rotateBack).multiply(scale).multiply(rotateToX)`
   * for the direction `d`: rotate the motion axis onto x, scale x by `k`,
   * rotate back.
   */
  function MotionTransform(d: Vec2, k: real): Mat2 {
    Mul(Mul(Mul(Identity, RotationZ(d.x, d.y)), ScaleX(k)), RotationZ(d.x, -d.y))
  }

  /** The product is the contraction. */
  lemma MotionTransformIsContraction(d: Vec2, k: real)
    ensures MotionTransform(d, k) == Contraction(d, k)
  {
    MulIdentity(RotationZ(d.x, d.y));
    RotateBackScaled(d.x, d.y, k);
    ScaledRotateToX(d.x, d.y, k);
  }

  /** Rotating by `-θ` undoes rotating by `θ`. */
  lemma RotationInverse(d: Vec2)
    requires IsUnit(d)
    ensures Mul(RotationZ(d.x, d.y), RotationZ(d.x, -d.y)) == Identity
    ensures Mul(RotationZ(d.x, -d.y), RotationZ(d.x, d.y)) == Identity
  {
  }

  /** The rows of the contraction applied to the unit vector `(c, s)`. */
  lemma AlongMotionRows(c: real, s: real, k: real)
    requires c * c + s * s == 1.0
    ensures Apply(Contraction(Vec2(c, s), k), Vec2(c, s)) == Scale(k, Vec2(c, s))
  {
    calc {
      (k * c * c + s * s) * c + ((k - 1.0) * c * s) * s;
      k * c * c * c + s * s * c + k * c * s * s - c * s * s;
      k * c * (c * c + s * s);
      k * c;
    }
    calc {
      ((k - 1.0) * c * s) * c + (k * s * s + c * c) * s;
      k * c * c * s - c * c * s + k * s * s * s + c * c * s;
      k * s * (c * c + s * s);
      k * s;
    }
  }

  /** The direction of motion is shortened by the factor `k`. */
  lemma ContractsAlongMotion(d: Vec2, k: real)
    requires IsUnit(d)
    ensures Apply(Contraction(d, k), d) == Scale(k, d)
  {
    AlongMotionRows(d.x, d.y, k);
  }

  /** The rows of the contraction applied to the unit vector `(-s, c)`. */
  lemma AcrossMotionRows(c: real, s: real, k: real)
    requires c * c + s * s == 1.0
    ensures Apply(Contraction(Vec2(c, s), k), Vec2(-s, c)) == Vec2(-s, c)
  {
    var ns := -s;
    calc {
      (k * c * c + s * s) * ns + ((k - 1.0) * c * s) * c;
      k * c * c * ns + s * s * ns + k * c * c * s - c * c * s;
      s * s * ns - c * c * s;
      ns * (c * c + s * s);
      ns;
    }
    calc {
      ((k - 1.0) * c * s) * ns + (k * s * s + c * c) * c;
      k * c * s * ns - c * s * ns + k * s * s * c + c * c * c;
      c * s * s + c * c * c;
      c * (c * c + s * s);
      c;
    }
  }

  /** The direction across the motion keeps its length. */
  lemma FixesPerpendicular(d: Vec2, k: real)
    requires IsUnit(d)
    ensures Apply(Contraction(d, k), Perpendicular(d)) == Perpendicular(d)
  {
    AcrossMotionRows(d.x, d.y, k);
  }

  /**
   * For every vector, the component along the motion is scaled by `k` and
   * the component across it is kept: the plane contracts along the motion
   * axis only, whatever the direction.
   */
  lemma ContractsOnlyAlongMotion(d: Vec2, k: real, w: Vec2)
    requires IsUnit(d)
    ensures Dot(Apply(Contraction(d, k), w), d) == k * Dot(w, d)
    ensures Dot(Apply(Contraction(d, k), w), Perpendicular(d)) == Dot(w, Perpendicular(d))
  {
    var m := Contraction(d, k);
    ContractsAlongMotion(d, k);
    FixesPerpendicular(d, k);
    // The contraction is symmetric, so each dot product moves onto `w`.
    SymmetricDot(m, w, d);
    SymmetricDot(m, w, Perpendicular(d));
    assert Dot(Apply(m, w), d) == Dot(w, Scale(k, d));
    DotScale(w, k, d);
  }

  /** Scaling one side of a dot product scales the product. */
  lemma DotScale(w: Vec2, k: real, d: Vec2)
    ensures Dot(w, Scale(k, d)) == k * Dot(w, d)
  {
    calc {
      Dot(w, Scale(k, d));
      w.x * (k * d.x) + w.y * (k * d.y);
      k * (w.x * d.x + w.y * d.y);
    }
  }

  /** A symmetric matrix can be moved across a dot product. */
  lemma SymmetricDot(m: Mat2, u: Vec2, v: Vec2)
    requires m.b == m.c
    ensures Dot(Apply(m, u), v) == Dot(u, Apply(m, v))
  {
    calc {
      Dot(Apply(m, u), v);
      (m.a * u.x + m.b * u.y) * v.x + (m.c * u.x + m.d * u.y) * v.y;
      m.a * u.x * v.x + m.b * u.y * v.x + m.c * u.x * v.y + m.d * u.y * v.y;
      u.x * (m.a * v.x + m.b * v.y) + u.y * (m.c * v.x + m.d * v.y);
      Dot(u, Apply(m, v));
    }
  }

  /**
   * The contraction is the only linear map that scales the direction of
   * motion by `k` and fixes the perpendicular direction.
   */
  lemma ContractionUnique(d: Vec2, k: real, m: Mat2)
    requires IsUnit(d)
    requires Apply(m, d) == Scale(k, d)
    requires Apply(m, Perpendicular(d)) == Perpendicular(d)
    ensures m == Contraction(d, k)
  {
    ContractsAlongMotion(d, k);
    FixesPerpendicular(d, k);
    DeterminedByBasis(m, Contraction(d, k), d);
  }

  /** A linear map of the plane is fixed by its images of a unit vector and of its perpendicular. */
  lemma DeterminedByBasis(m: Mat2, n: Mat2, d: Vec2)
    requires IsUnit(d)
    requires Apply(m, d) == Apply(n, d)
    requires Apply(m, Perpendicular(d)) == Apply(n, Perpendicular(d))
    ensures m == n
  {
    SameRow(d.x, d.y, m.a, m.b, n.a, n.b);
    SameRow(d.x, d.y, m.c, m.d, n.c, n.d);
  }

  /**
   * Two rows `(p, q)` and `(p', q')` with the same products with a unit
   * vector `(c, s)` and with its perpendicular `(-s, c)` are equal.
   */
  lemma SameRow(c: real, s: real, p: real, q: real, p': real, q': real)
    requires c * c + s * s == 1.0
    requires p * c + q * s == p' * c + q' * s
    requires p * -s + q * c == p' * -s + q' * c
    ensures p == p' && q == q'
  {
    var x, y := p - p', q - q';
    assert x * c + y * s == 0.0;
    assert x * -s + y * c == 0.0;
    calc {
      x;
      x * (c * c + s * s);
      c * (x * c + y * s) - s * (x * -s + y * c);
      0.0;
    }
    calc {
      y;
      y * (c * c + s * s);
      s * (x * c + y * s) + c * (x * -s + y * c);
      0.0;
    }
  }

  /** Motion along x is a plain scale of x. */
  lemma AxisAlignedContraction(k: real)
    ensures Contraction(Vec2(1.0, 0.0), k) == ScaleX(k)
  {
  }

  /** At rest (`k == 1`) the contraction is the identity, whatever the direction. */
  lemma NoContractionAtUnitFactor(d: Vec2)
    requires IsUnit(d)
    ensures Contraction(d, 1.0) == Identity
  {
  }

  /**
   * The x/y block of three.js's `Matrix4.compose(position, quaternion, scale)`
   * for a quaternion `(0, 0, qz, qw)` about the view axis and the scale
   * `(sx, sy, 1)`: the rotation part of the quaternion, times the
   * axis-aligned scale. `updateMatrix` rebuilds the mesh matrix this way.
   */
  function Compose(qz: real, qw: real, sx: real, sy: real): Mat2 {
    var zz, wz := qz * (qz + qz), qw * (qz + qz);
    Mat2((1.0 - zz) * sx, -wz * sy, wz * sx, (1.0 - zz) * sy)
  }

  /** The dot product of the two columns `(a, c)` and `(b, d)` of `m`. */
  function ColumnDot(m: Mat2): real {
    m.a * m.b + m.c * m.d
  }

  /** A composed matrix always has orthogonal columns, whatever quaternion and scale it is built from. */
  lemma ComposedColumnsOrthogonal(qz: real, qw: real, sx: real, sy: real)
    ensures ColumnDot(Compose(qz, qw, sx, sy)) == 0.0
  {
    var zz, wz := qz * (qz + qz), qw * (qz + qz);
    var p := 1.0 - zz;
    calc {
      ColumnDot(Compose(qz, qw, sx, sy));
      (p * sx) * (-wz * sy) + (wz * sx) * (p * sy);
      -(p * wz * sx * sy) + p * wz * sx * sy;
      0.0;
    }
  }

  /** The columns of the contraction by `k` along a unit `(c, s)` meet at dot product `(k² − 1)·c·s`. */
  lemma ContractionColumnsMeet(c: real, s: real, k: real)
    requires c * c + s * s == 1.0
    ensures ColumnDot(Contraction(Vec2(c, s), k)) == (k * k - 1.0) * c * s
  {
    var cs := (k - 1.0) * c * s;
    calc {
      ColumnDot(Contraction(Vec2(c, s), k));
      (k * c * c + s * s) * cs + cs * (k * s * s + c * c);
      cs * ((k + 1.0) * (c * c + s * s));
      cs * (k + 1.0);
      (k * k - 1.0) * c * s;
    }
  }

  /**
   * For a diagonal direction and a proper contraction (`0 < k < 1`) the
   * columns of the contraction are not orthogonal, so no composed matrix
   * equals it.
   */
  lemma ContractionIsNotComposed(d: Vec2, k: real, qz: real, qw: real, sx: real, sy: real)
    requires IsUnit(d) && d.x != 0.0 && d.y != 0.0 && 0.0 < k < 1.0
    ensures Compose(qz, qw, sx, sy) != Contraction(d, k)
  {
    ComposedColumnsOrthogonal(qz, qw, sx, sy);
    ContractionNotOrthogonal(d, k);
  }

  /** For a diagonal direction and `0 < k < 1` the columns of the contraction are not orthogonal. */
  lemma ContractionNotOrthogonal(d: Vec2, k: real)
    requires IsUnit(d) && d.x != 0.0 && d.y != 0.0 && 0.0 < k < 1.0
    ensures ColumnDot(Contraction(d, k)) != 0.0
  {
    ContractionColumnsMeet(d.x, d.y, k);
    ShearNonZero(k, d.x, d.y);
    assert d == Vec2(d.x, d.y);
  }

  /** `(k² − 1)·c·s` is non-zero for `0 < k < 1` and non-zero `c`, `s`. */
  lemma ShearNonZero(k: real, c: real, s: real)
    requires 0.0 < k < 1.0 && c != 0.0 && s != 0.0
    ensures (k * k - 1.0) * c * s != 0.0
  {
    assert k * k < k * 1.0;
    var cs := c * s;
    assert cs != 0.0;
    assert (k * k - 1.0) * c * s == (k * k - 1.0) * cs;
  }

  /** At 3-4-5 motion and `k = 0.5`: the contraction, and the dot product of its columns. */
  lemma ContractionAtThreeFourFive()
    ensures Contraction(Vec2(0.6, 0.8), 0.5) == Mat2(0.82, -0.24, -0.24, 0.68)
    ensures ColumnDot(Contraction(Vec2(0.6, 0.8), 0.5)) == -0.36
  {
  }

  /**
   * The same direction at speed 0.5, where the factor is 1/γ = √0.75: the
   * columns meet with dot product −0.12.
   */
  lemma ContractionAtHalfLightSpeed(k: real)
    requires k > 0.0 && k * k == 0.75
    ensures ColumnDot(Contraction(Vec2(0.6, 0.8), k)) == -0.12
  {
    ContractionColumnsMeet(0.6, 0.8, k);
  }
}
