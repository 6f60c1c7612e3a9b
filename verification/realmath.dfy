/** The parts of JavaScript's `Math` object the engine uses.

    `Math.sqrt`, `Math.atan2`, `Math.cos` and `Math.sin` are left
    uninterpreted: every operation that needs one takes a `MathLib` value,
    and every property is stated either for all such values or under the
    small facts named below. */
module RealMath {

  /** `Math.sqrt`, `Math.atan2(y, x)`, `Math.cos`, `Math.sin`. */
  datatype MathLib = MathLib(
    sqrt: real -> real,
    atan2: (real, real) -> real,
    cos: real -> real,
    sin: real -> real)

  /** `Math.PI`, written as the shortest decimal that denotes it. */
  const PI: real := 3.141592653589793

  /** The square root is non-negative, and positive on positive arguments. */
  ghost predicate SqrtLaws(m: MathLib)
  {
    forall v: real :: 0.0 <= v ==> 0.0 <= m.sqrt(v) && (0.0 < v ==> 0.0 < m.sqrt(v))
  }

  /** `cos(0) = 1` and `sin(0) = 0`. */
  ghost predicate TrigAtZero(m: MathLib)
  {
    m.cos(0.0) == 1.0 && m.sin(0.0) == 0.0
  }

  /** `cos²θ + sin²θ = 1` at the angle `theta`. */
  ghost predicate Pythagorean(m: MathLib, theta: real)
  {
    Sq(m.cos(theta)) + Sq(m.sin(theta)) == 1.0
  }

  /** `Math.abs`. */
  function Abs(v: real): (r: real)
    ensures 0.0 <= r && (r == v || r == -v)
  {
    if v < 0.0 then -v else v
  }

  /** A square. Facts about products are stated over this symbol so that
      they carry over between equal arguments. */
  function Sq(a: real): real
  {
    a * a
  }

  lemma SqNonNegative(a: real)
    ensures 0.0 <= Sq(a)
  {
    if 0.0 < a {
      assert 0.0 < a * a;
    } else if a < 0.0 {
      assert a * a == (-a) * (-a);
      assert 0.0 < (-a) * (-a);
    }
  }

  // Facts about products and quotients, stated over plain parameters so
  // that each is a single step for the solver.

  lemma MulPos(a: real, b: real)
    requires 0.0 < a && 0.0 < b
    ensures 0.0 < a * b
  {
  }

  lemma MulNegPos(a: real, b: real)
    requires a < 0.0 && 0.0 < b
    ensures a * b < 0.0
  {
  }

  lemma MulNonPos(a: real, b: real)
    requires a <= 0.0 && b <= 0.0
    ensures 0.0 <= a * b
  {
  }

  lemma FactorPos(a: real, b: real)
    requires 0.0 < b && 0.0 < a * b
    ensures 0.0 < a
  {
  }

  lemma DivPos(a: real, b: real)
    requires 0.0 < a && 0.0 < b
    ensures 0.0 < a / b
  {
  }

  lemma DivNeg(a: real, b: real)
    requires a < 0.0 && 0.0 < b
    ensures a / b < 0.0
  {
  }

  /** `x + 2xk = x(1 + 2k)`. */
  lemma Distrib(x: real, k: real)
    ensures x + (x * k) * 2.0 == x * (1.0 + 2.0 * k)
  {
  }

  /** `(a / m) · (m · g) = a · g`. */
  lemma CancelDiv(a: real, m: real, g: real)
    requires m != 0.0
    ensures (a / m) * (m * g) == a * g
  {
    assert (a / m) * m == a;
  }

  /** The squared length of a rotated offset is the squared length times
      `cos² + sin²`. */
  lemma RotationNorm(dx: real, dy: real, c: real, s: real)
    ensures Sq(dx * c - dy * s) + Sq(dx * s + dy * c) == (Sq(dx) + Sq(dy)) * (Sq(c) + Sq(s))
  {
    assert Sq(dx * c - dy * s) == dx * dx * c * c - 2.0 * dx * dy * c * s + dy * dy * s * s;
    assert Sq(dx * s + dy * c) == dx * dx * s * s + 2.0 * dx * dy * c * s + dy * dy * c * c;
    assert (Sq(dx) + Sq(dy)) * (Sq(c) + Sq(s)) == dx * dx * c * c + dx * dx * s * s + dy * dy * c * c + dy * dy * s * s;
  }

  /** Turning two offsets by the same `(c, s)` multiplies both their cross
      and their dot product by `c² + s²`. */
  lemma RotationProducts(ux: real, uy: real, vx: real, vy: real, c: real, s: real,
                         p1: real, p2: real, q1: real, q2: real)
    requires p1 == ux * c - uy * s && p2 == ux * s + uy * c
    requires q1 == vx * c - vy * s && q2 == vx * s + vy * c
    ensures p1 * q2 - p2 * q1 == (ux * vy - uy * vx) * (Sq(c) + Sq(s))
    ensures p1 * q1 + p2 * q2 == (ux * vx + uy * vy) * (Sq(c) + Sq(s))
  {
  }

  /** `|w| ≤ b` bounds `|w · c|` by `b · |c|`. */
  lemma AbsMulBound(w: real, c: real, b: real)
    requires Abs(w) <= b
    ensures Abs(w * c) <= b * Abs(c)
  {
    if 0.0 <= c {
      assert Abs(w * c) == Abs(w) * c;
    } else {
      assert Abs(w * c) == Abs(w) * -c;
    }
  }

  /** A point `(c·r, s·r)` has squared length `r² (c² + s²)`. */
  lemma CircleNorm(r: real, c: real, s: real)
    ensures Sq(c * r) + Sq(s * r) == Sq(r) * (Sq(c) + Sq(s))
  {
  }
}
