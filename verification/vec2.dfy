/** The two-dimensional vector value of `vec2.ts`.

    The class has pure operations that build a new vector and `mutable*`
    twins that overwrite the receiver field by field and return it. Here a
    vector is an immutable value; an in-place operation is modelled as the
    receiver's state after its field assignments, in the order the source
    performs them. */
module Vectors {
  import opened Optional
  import opened RealMath

  datatype Vec2 = Vec2(x: real, y: real)

  const Zero: Vec2 := Vec2(0.0, 0.0)

  /** `new Vec2(x?, y?)`: an omitted component (`x || 0`) is zero. */
  function NewVec2(x: Option<real>, y: Option<real>): (v: Vec2)
    ensures x.None? ==> v.x == 0.0
    ensures y.None? ==> v.y == 0.0
    ensures x.Some? ==> v.x == x.value
    ensures y.Some? ==> v.y == y.value
  {
    Vec2(if x.Some? then x.value else 0.0, if y.Some? then y.value else 0.0)
  }

  // ---------------------------------------------------------------- pure

  /** `u.add(v)`, component by component. */
  function Add(u: Vec2, v: Vec2): Vec2
  {
    Vec2(u.x + v.x, u.y + v.y)
  }

  /** `u.sub(v)` undoes `add(v)`, and a vector minus itself is zero. */
  function Sub(u: Vec2, v: Vec2): (r: Vec2)
    ensures Add(r, v) == u
    ensures u == v ==> r == Zero
  {
    Vec2(u.x - v.x, u.y - v.y)
  }

  /** `u.mul(v)`, component by component: multiplying by `(c, c)` is
      scaling by `c`, and `(1, 1)` is its identity. */
  function Mul(u: Vec2, v: Vec2): (r: Vec2)
    ensures v.x == v.y ==> r == Scale(u, v.x)
    ensures v == Vec2(1.0, 1.0) ==> r == u
  {
    Vec2(u.x * v.x, u.y * v.y)
  }

  /** Component-wise division, the inverse of `mul` when no component of
      the divisor is zero. */
  function Div(u: Vec2, v: Vec2): (r: Vec2)
    requires v.x != 0.0 && v.y != 0.0
    ensures Mul(r, v) == u
  {
    Vec2(u.x / v.x, u.y / v.y)
  }

  /** `v.scale(coef)`; `ScaleLaws` states what it does. */
  function Scale(v: Vec2, coef: real): Vec2
  {
    Vec2(v.x * coef, v.y * coef)
  }

  /** `u.dot(v)`; `DotLaws` states what it does. */
  function Dot(u: Vec2, v: Vec2): real
  {
    u.x * v.x + u.y * v.y
  }

  /** The squared length is the vector's dot product with itself and is
      never negative. */
  function Length2(v: Vec2): (r: real)
    ensures r == Dot(v, v)
    ensures r == Sq(v.x) + Sq(v.y)
    ensures 0.0 <= r
  {
    SqNonNegative(v.x);
    SqNonNegative(v.y);
    v.x * v.x + v.y * v.y
  }

  /** The squared distance from `u` to `v` is the squared length of
      `v - u`, and a point is at squared distance zero from itself. */
  function Dist2(u: Vec2, v: Vec2): (r: real)
    ensures r == Length2(Sub(v, u))
    ensures u == v ==> r == 0.0
  {
    var dx := v.x - u.x;
    var dy := v.y - u.y;
    assert Sub(v, u) == Vec2(dx, dy);
    dx * dx + dy * dy
  }

  function Length(v: Vec2, m: MathLib): (r: real)
    ensures SqrtLaws(m) ==> 0.0 <= r
  {
    m.sqrt(Length2(v))
  }

  function Dist(u: Vec2, v: Vec2, m: MathLib): (r: real)
    ensures SqrtLaws(m) ==> 0.0 <= r
  {
    m.sqrt(Dist2(u, v))
  }

  /** `normal()`: the vector divided by its length, so that scaling it back
      by that length recovers the vector. The source divides by zero for
      the zero vector. */
  function Normal(v: Vec2, m: MathLib): (r: Vec2)
    requires Length(v, m) != 0.0
    ensures Scale(r, Length(v, m)) == v
  {
    var len := Length(v, m);
    Vec2(v.x / len, v.y / len)
  }

  /** The cross product `u.x·v.y − u.y·v.x`: zero from a vector to
      itself. */
  function Cross(u: Vec2, v: Vec2): (r: real)
    ensures u == v ==> r == 0.0
  {
    u.x * v.y - u.y * v.x
  }

  /** The signed angle from `u` to `v`: `atan2(cross, dot)`. From a vector
      to itself that is `atan2(0, u·u)`. */
  function Angle(u: Vec2, v: Vec2, m: MathLib): (r: real)
    ensures u == v ==> r == m.atan2(0.0, Dot(u, u))
  {
    m.atan2(Cross(u, v), Dot(u, v))
  }

  /** `self.angle2(left, right)`: the angle at `self` between the rays to
      `left` and `right`. Between a ray and itself it is `atan2(0, d²)`
      for the squared distance `d²`. */
  function Angle2(self: Vec2, left: Vec2, right: Vec2, m: MathLib): (r: real)
    ensures left == right ==> r == m.atan2(0.0, Dist2(self, left))
  {
    Angle(Sub(left, self), Sub(right, self), m)
  }

  /** `rotate(origin, theta)`: the right-handed rotation about `origin`.
      The pivot is a fixed point of every rotation, and a zero angle leaves
      every point in place when `cos 0 = 1` and `sin 0 = 0`. */
  function Rotate(v: Vec2, origin: Vec2, theta: real, m: MathLib): (r: Vec2)
    ensures v == origin ==> r == origin
    ensures TrigAtZero(m) && theta == 0.0 ==> r == v
  {
    var dx := v.x - origin.x;
    var dy := v.y - origin.y;
    Vec2(dx * m.cos(theta) - dy * m.sin(theta) + origin.x,
         dx * m.sin(theta) + dy * m.cos(theta) + origin.y)
  }

  /** `===` on both components: the same as value equality. */
  function Equals(u: Vec2, v: Vec2): (r: bool)
    ensures r <==> u == v
  {
    u.x == v.x && u.y == v.y
  }

  /** Both components within `epsilon`; implied by `equals` for every
      non-negative `epsilon`. */
  function EpsilonEquals(u: Vec2, v: Vec2, epsilon: real): (r: bool)
    ensures Equals(u, v) && 0.0 <= epsilon ==> r
    ensures r ==> 0.0 <= epsilon
  {
    Abs(u.x - v.x) <= epsilon && Abs(u.y - v.y) <= epsilon
  }

  // ------------------------------------------------------------ in place

  /** `mutableSet(v)`: copies both components. */
  function MutableSet(self: Vec2, v: Vec2): (r: Vec2)
    ensures r == v
  {
    self.(x := v.x).(y := v.y)
  }

  /** `mutableAdd(v)`: `x += v.x; y += v.y`, the same value as `add`. */
  function MutableAdd(self: Vec2, v: Vec2): (r: Vec2)
    ensures r == Add(self, v)
    ensures Sub(r, v) == self
  {
    var s1 := self.(x := self.x + v.x);
    s1.(y := s1.y + v.y)
  }

  /** `mutableSub(v)`, the same value as `sub`. */
  function MutableSub(self: Vec2, v: Vec2): (r: Vec2)
    ensures r == Sub(self, v)
    ensures Add(r, v) == self
  {
    var s1 := self.(x := self.x - v.x);
    s1.(y := s1.y - v.y)
  }

  /** `mutableMul(v)`, the same value as `mul`. */
  function MutableMul(self: Vec2, v: Vec2): (r: Vec2)
    ensures r == Mul(self, v)
  {
    var s1 := self.(x := self.x * v.x);
    s1.(y := s1.y * v.y)
  }

  /** `mutableDiv(v)`, the same value as `div`. */
  function MutableDiv(self: Vec2, v: Vec2): (r: Vec2)
    requires v.x != 0.0 && v.y != 0.0
    ensures r == Div(self, v)
    ensures Mul(r, v) == self
  {
    var s1 := self.(x := self.x / v.x);
    s1.(y := s1.y / v.y)
  }

  /** `mutableScale(coef)`, the same value as `scale`. */
  function MutableScale(self: Vec2, coef: real): (r: Vec2)
    ensures r == Scale(self, coef)
  {
    var s1 := self.(x := self.x * coef);
    s1.(y := s1.y * coef)
  }

  /** `mutableRotate(origin, theta)`: the offsets are taken before `x` is
      overwritten, so the result is the point `rotate` computes. */
  function MutableRotate(self: Vec2, origin: Vec2, theta: real, m: MathLib): (r: Vec2)
    ensures r == Rotate(self, origin, theta, m)
  {
    var dx := self.x - origin.x;
    var dy := self.y - origin.y;
    var s1 := self.(x := dx * m.cos(theta) - dy * m.sin(theta) + origin.x);
    s1.(y := dx * m.sin(theta) + dy * m.cos(theta) + origin.y)
  }

  // ------------------------------------------------------------- lemmas

  /** `a.add(b).sub(b)` is `a`. */
  lemma AddSubRoundTrip(a: Vec2, b: Vec2)
    ensures Sub(Add(a, b), b) == a
  {
  }

  /** The squared distance is symmetric. */
  lemma Dist2Symmetric(u: Vec2, v: Vec2)
    ensures Dist2(u, v) == Dist2(v, u)
  {
  }

  /** `equals` is reflexive. */
  lemma EqualsReflexive(v: Vec2)
    ensures Equals(v, v)
    ensures forall e: real :: 0.0 <= e ==> EpsilonEquals(v, v, e)
  {
  }

  /** Rotation commutes with translation: moving the point and the pivot by
      the same offset moves the rotated point by that offset. */
  lemma RotateTranslate(v: Vec2, origin: Vec2, t: Vec2, theta: real, m: MathLib)
    ensures Rotate(Add(v, t), Add(origin, t), theta, m) == Add(Rotate(v, origin, theta, m), t)
  {
  }

  /** `angle2` depends only on the offsets from the vertex, so translating
      all three points leaves it unchanged, whatever `atan2` is. */
  lemma Angle2Translate(self: Vec2, left: Vec2, right: Vec2, t: Vec2, m: MathLib)
    ensures Angle2(Add(self, t), Add(left, t), Add(right, t), m) == Angle2(self, left, right, m)
  {
    assert Sub(Add(left, t), Add(self, t)) == Sub(left, self);
    assert Sub(Add(right, t), Add(self, t)) == Sub(right, self);
  }

  /** Scaling by `1` keeps the vector, scaling by `0` gives the zero
      vector, and scaling by `coef` multiplies the squared length by
      `coef²`. */
  lemma ScaleLaws(v: Vec2, coef: real)
    ensures coef == 1.0 ==> Scale(v, coef) == v
    ensures coef == 0.0 ==> Scale(v, coef) == Zero
    ensures Length2(Scale(v, coef)) == Sq(coef) * Length2(v)
  {
    assert Sq(v.x * coef) == Sq(coef) * Sq(v.x);
    assert Sq(v.y * coef) == Sq(coef) * Sq(v.y);
  }

  /** `add` is commutative and associative, with the zero vector as its
      identity. */
  lemma AddLaws(u: Vec2, v: Vec2, w: Vec2)
    ensures Add(u, v) == Add(v, u)
    ensures Add(Add(u, v), w) == Add(u, Add(v, w))
    ensures Add(u, Zero) == u
  {
  }

  /** `dot` is symmetric and vanishes when either vector is zero. */
  lemma DotLaws(u: Vec2, v: Vec2)
    ensures Dot(u, v) == Dot(v, u)
    ensures u == Zero || v == Zero ==> Dot(u, v) == 0.0
  {
  }

  /** The dot product is recovered from squared lengths alone:
      `2 u·v = |u + v|² − |u|² − |v|²`. */
  lemma DotPolarization(u: Vec2, v: Vec2)
    ensures 2.0 * Dot(u, v) == Length2(Add(u, v)) - Length2(u) - Length2(v)
  {
    assert Sq(u.x + v.x) == Sq(u.x) + 2.0 * (u.x * v.x) + Sq(v.x);
    assert Sq(u.y + v.y) == Sq(u.y) + 2.0 * (u.y * v.y) + Sq(v.y);
  }

  /** Turning both vectors about the origin by the same angle keeps the
      angle between them, when `cos²θ + sin²θ = 1`. */
  lemma AngleRotate(u: Vec2, v: Vec2, theta: real, m: MathLib)
    requires Pythagorean(m, theta)
    ensures Angle(Rotate(u, Zero, theta, m), Rotate(v, Zero, theta, m), m) == Angle(u, v, m)
  {
    var c, s := m.cos(theta), m.sin(theta);
    assert Rotate(u, Zero, theta, m) == Turn(u, c, s);
    assert Rotate(v, Zero, theta, m) == Turn(v, c, s);
    TurnProducts(u, v, c, s);
    AngleOfProducts(Turn(u, c, s), Turn(v, c, s), u, v, m);
  }

  /** The offset `u` turned by the cosine `c` and the sine `s`. */
  function Turn(u: Vec2, c: real, s: real): Vec2
  {
    Vec2(u.x * c - u.y * s, u.x * s + u.y * c)
  }

  /** Turning scales both the cross and the dot product by `c² + s²`. */
  lemma TurnProducts(u: Vec2, v: Vec2, c: real, s: real)
    ensures Cross(Turn(u, c, s), Turn(v, c, s)) == Cross(u, v) * (Sq(c) + Sq(s))
    ensures Dot(Turn(u, c, s), Turn(v, c, s)) == Dot(u, v) * (Sq(c) + Sq(s))
  {
    var tu, tv := Turn(u, c, s), Turn(v, c, s);
    RotationProducts(u.x, u.y, v.x, v.y, c, s, tu.x, tu.y, tv.x, tv.y);
  }

  /** The angle depends on the two vectors only through their cross and
      dot products. */
  lemma AngleOfProducts(u': Vec2, v': Vec2, u: Vec2, v: Vec2, m: MathLib)
    requires Cross(u', v') == Cross(u, v)
    requires Dot(u', v') == Dot(u, v)
    ensures Angle(u', v', m) == Angle(u, v, m)
  {
  }
}
