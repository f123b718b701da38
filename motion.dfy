/**
 * The velocity rules shared by the render loop and the sidebar: the speed
 * cap, the direction threshold and the relativistic factors, which are
 * inputs of the model rather than computed (they need square roots and
 * logarithms).
 */
module Motion {
  import opened Transform

  /** Speeds are capped just below c = 1 before any relativistic formula sees them. */
  const MaxSpeed: real := 0.9999

  /** At or below this speed the direction of motion is treated as undefined. */
  const DirectionThreshold: real := 0.001

  /**
   * `m` is `Math.sqrt(vx * vx + vy * vy)`. The model does not compute the
   * square root; it takes `m` as a witness that satisfies this predicate.
   */
  predicate IsMagnitude(vx: real, vy: real, m: real) {
    m >= 0.0 && m * m == vx * vx + vy * vy
  }

  /** Squaring is strictly increasing on the non-negative reals. */
  lemma SquareStrictlyIncreasing(a: real, b: real)
    requires 0.0 <= a < b
    ensures a * a < b * b
  {
    var aa, ab, bb := a * a, a * b, b * b;
    assert aa <= ab;
    assert ab < bb;
  }

  /** The witness is well defined: a velocity has one magnitude. */
  lemma MagnitudeUnique(vx: real, vy: real, m1: real, m2: real)
    requires IsMagnitude(vx, vy, m1) && IsMagnitude(vx, vy, m2)
    ensures m1 == m2
  {
    if m1 < m2 {
      SquareStrictlyIncreasing(m1, m2);
      assert false;
    } else if m2 < m1 {
      SquareStrictlyIncreasing(m2, m1);
      assert false;
    }
  }

  /** A square is positive exactly when its root is non-zero. */
  lemma SquarePositive(x: real)
    ensures x * x >= 0.0
    ensures x * x == 0.0 <==> x == 0.0
  {
    if x > 0.0 {
      SquareStrictlyIncreasing(0.0, x);
    } else if x < 0.0 {
      SquareStrictlyIncreasing(0.0, -x);
      assert (-x) * (-x) == x * x;
    }
  }

  /** The magnitude is zero exactly when both components are. */
  lemma MagnitudeZeroIff(vx: real, vy: real, m: real)
    requires IsMagnitude(vx, vy, m)
    ensures m == 0.0 <==> vx == 0.0 && vy == 0.0
  {
    SquarePositive(vx);
    SquarePositive(vy);
    SquarePositive(m);
  }

  /** `Math.min(m, 0.9999)`: never above the cap, and the raw speed whenever that is within it. */
  function CapSpeed(m: real): (r: real)
    ensures r <= MaxSpeed && r <= m
    ensures r == m || r == MaxSpeed
  {
    if m < MaxSpeed then m else MaxSpeed
  }

  /** A capped non-negative speed lies in the domain [0, 1) of the relativistic formulas. */
  lemma CappedSpeedInDomain(m: real)
    requires m >= 0.0
    ensures 0.0 <= CapSpeed(m) < 1.0
    ensures m <= MaxSpeed ==> CapSpeed(m) == m
  {
  }

  /**
   * The Lorentz factor and the Doppler factor as functions of a speed. They
   * are square-root formulas in the program; the model only relies on the
   * bounds that `Admissible` states.
   */
  datatype Physics = Physics(gamma: real -> real, doppler: real -> real)

  /** On [0, 1) the Lorentz factor is at least 1 and the Doppler factor positive. */
  ghost predicate Admissible(p: Physics) {
    forall v :: 0.0 <= v < 1.0 ==> p.gamma(v) >= 1.0 && p.doppler(v) > 0.0
  }

  /** The unit direction of motion `(vx / m, vy / m)`. */
  function Direction(vx: real, vy: real, m: real): Vec2
    requires m > 0.0
  {
    Vec2(vx / m, vy / m)
  }

  /** Dividing a velocity by its magnitude gives a unit vector. */
  lemma DirectionIsUnit(vx: real, vy: real, m: real)
    requires IsMagnitude(vx, vy, m) && m > 0.0
    ensures IsUnit(Direction(vx, vy, m))
  {
    var dx, dy := vx / m, vy / m;
    assert dx * m == vx && dy * m == vy;
    assert (dx * m) * (dx * m) == vx * vx;
    assert (dy * m) * (dy * m) == vy * vy;
    var mm, len := m * m, dx * dx + dy * dy;
    assert len * mm == (dx * m) * (dx * m) + (dy * m) * (dy * m);
    assert len * mm == 1.0 * mm;
    SquareStrictlyIncreasing(0.0, m);
    assert Dot(Direction(vx, vy, m), Direction(vx, vy, m)) == len;
  }
}
