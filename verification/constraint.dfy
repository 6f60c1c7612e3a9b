/** The five constraint kinds of `constraint.ts` and their `relax` rules.

    A constraint names its particles by index into the particle sequence of
    the composite that owns it, where the source holds object references.
    Relaxing a constraint is a function from that particle sequence to the
    next one; a constraint itself never changes when it is relaxed.

    Every in-place correction is modelled as a sequence of single-particle
    position writes in the order the source performs them, so that a
    constraint whose indices coincide behaves as the aliased objects would. */
module Constraints {
  import opened Optional
  import opened RealMath
  import opened Vectors
  import opened Particles

  datatype Constraint =
    | DistanceConstraint(a: nat, b: nat, stiffness: real, distance: real)
    | CollisionConstraint(a: nat, b: nat, stiffness: real)
    | PinConstraint(a: nat, pos: Vec2)
    | AngleConstraint(a: nat, b: nat, c: nat, angle: real, stiffness: real)
    | MinMaxDistanceConstraint(a: nat, b: nat, minDistance: real, maxDistance: real, stiffness: real)

  /** The particle indices a constraint refers to. */
  function Indices(k: Constraint): set<nat>
  {
    match k
    case PinConstraint(a, _) => {a}
    case AngleConstraint(a, b, c, _, _) => {a, b, c}
    case _ => {k.a, k.b}
  }

  /** Every index the constraint refers to names one of `n` particles. */
  predicate InRange(k: Constraint, n: nat)
  {
    match k
    case PinConstraint(a, _) => a < n
    case AngleConstraint(a, b, c, _, _) => a < n && b < n && c < n
    case _ => k.a < n && k.b < n
  }

  /** The separation `a.pos - b.pos` that every two-particle rule works on. */
  function Separation(ps: seq<Particle>, a: nat, b: nat): Vec2
    requires a < |ps| && b < |ps|
  {
    Sub(ps[a].pos, ps[b].pos)
  }

  // -------------------------------------------------------- constructors

  /** `new DistanceConstraint(a, b, stiffness, distance?)`: without an
      explicit distance the rest length is the particles' current distance. */
  function NewDistance(ps: seq<Particle>, a: nat, b: nat, stiffness: real, distance: Option<real>, m: MathLib): (k: Constraint)
    requires a < |ps| && b < |ps|
    ensures k.DistanceConstraint? && k.a == a && k.b == b && k.stiffness == stiffness
    ensures distance.Some? ==> k.distance == distance.value
    ensures distance.None? ==> k.distance == Dist(ps[b].pos, ps[a].pos, m)
    ensures distance.None? && SqrtLaws(m) ==> 0.0 <= k.distance
    ensures InRange(k, |ps|)
  {
    var d := if distance.Some? then distance.value else Length(Separation(ps, a, b), m);
    DistanceConstraint(a, b, stiffness, d)
  }

  /** `new CollisionConstraint(a, b, stiffness)`. */
  function NewCollision(a: nat, b: nat, stiffness: real): (k: Constraint)
    ensures k.CollisionConstraint? && Indices(k) == {a, b} && k.stiffness == stiffness
  {
    CollisionConstraint(a, b, stiffness)
  }

  /** `new PinConstraint(a, pos)`: the pin keeps its own copy of `pos`. */
  function NewPin(a: nat, pos: Vec2): (k: Constraint)
    ensures k.PinConstraint? && Indices(k) == {a} && k.pos == pos
  {
    PinConstraint(a, MutableSet(Zero, pos))
  }

  /** `new AngleConstraint(a, b, c, stiffness)`: the rest angle is the
      angle at `b` between `a` and `c` when the constraint is made. */
  function NewAngle(ps: seq<Particle>, a: nat, b: nat, c: nat, stiffness: real, m: MathLib): (k: Constraint)
    requires a < |ps| && b < |ps| && c < |ps|
    ensures k.AngleConstraint? && k.a == a && k.b == b && k.c == c && k.stiffness == stiffness
    ensures k.angle == Angle2(ps[b].pos, ps[a].pos, ps[c].pos, m)
    ensures InRange(k, |ps|)
  {
    AngleConstraint(a, b, c, Angle2(ps[b].pos, ps[a].pos, ps[c].pos, m), stiffness)
  }

  /** `new MinMaxDistanceConstraint(a, b, min, max, stiffness)`. */
  function NewMinMaxDistance(a: nat, b: nat, minDistance: real, maxDistance: real, stiffness: real): (k: Constraint)
    ensures k.MinMaxDistanceConstraint? && Indices(k) == {a, b}
    ensures k.minDistance == minDistance && k.maxDistance == maxDistance && k.stiffness == stiffness
  {
    MinMaxDistanceConstraint(a, b, minDistance, maxDistance, stiffness)
  }

  // ------------------------------------------------------ shared pieces

  /** `a.pos.mutableAdd(n); b.pos.mutableSub(n)`: an equal and opposite
      correction. When `a` and `b` are one particle the two writes cancel. */
  function Displace(ps: seq<Particle>, a: nat, b: nat, n: Vec2): (r: seq<Particle>)
    requires a < |ps| && b < |ps|
    ensures OnlyMoves(ps, r, {a, b})
    ensures a == b ==> r == ps
    ensures a != b ==> r[a].pos == Add(ps[a].pos, n) && r[b].pos == Sub(ps[b].pos, n)
    ensures a != b ==> Add(r[a].pos, r[b].pos) == Add(ps[a].pos, ps[b].pos)
    ensures a != b ==> Separation(r, a, b) == Add(Separation(ps, a, b), Scale(n, 2.0))
  {
    var ps1 := SetPos(ps, a, MutableAdd(ps[a].pos, n));
    var r := SetPos(ps1, b, MutableSub(ps1[b].pos, n));
    if a == b then
      AddSubRoundTrip(ps[a].pos, n);
      assert r[a] == ps[a];
      r
    else
      r
  }

  /** A zero correction changes nothing. */
  lemma DisplaceByZero(ps: seq<Particle>, a: nat, b: nat)
    requires a < |ps| && b < |ps|
    ensures Displace(ps, a, b, Zero) == ps
  {
    if a != b {
      var r := Displace(ps, a, b, Zero);
      assert r[a] == ps[a];
      assert r[b] == ps[b];
    }
  }

  /** `normal.mutableScale(f)` followed by the equal and opposite
      correction by `normal`, where `normal` is the separation `a - b`. The
      separation keeps its direction and is rescaled by `1 + 2f`, and a zero
      factor changes nothing. */
  function DisplaceAlong(ps: seq<Particle>, a: nat, b: nat, f: real): (r: seq<Particle>)
    requires a < |ps| && b < |ps|
    ensures OnlyMoves(ps, r, {a, b})
    ensures a != b ==> Add(r[a].pos, r[b].pos) == Add(ps[a].pos, ps[b].pos)
    ensures a != b ==> Separation(r, a, b) == Scale(Separation(ps, a, b), 1.0 + 2.0 * f)
    ensures f == 0.0 ==> r == ps
  {
    var s := Separation(ps, a, b);
    var n := MutableScale(s, f);
    assert a != b ==> Separation(Displace(ps, a, b, n), a, b) == Scale(s, 1.0 + 2.0 * f) by {
      Distrib(s.x, f);
      Distrib(s.y, f);
    }
    assert f == 0.0 ==> Displace(ps, a, b, n) == ps by {
      if f == 0.0 {
        assert n == Zero;
        DisplaceByZero(ps, a, b);
      }
    }
    Displace(ps, a, b, n)
  }

  /** The factor `((target - m) / m) · stiffness · stepCoef` by which the
      distance, collision and min/max rules scale the separation, where `m`
      is the measured (squared) length and `target` the wanted one. */
  function CorrectionFactor(target: real, m: real, stiffness: real, stepCoef: real): real
    requires m != 0.0
  {
    ((target - m) / m) * stiffness * stepCoef
  }

  /** With positive stiffness and step coefficient the factor has the sign
      of `target - m`: a separation longer than wanted shrinks, a shorter one
      grows, and one of the wanted length is left alone. */
  lemma CorrectionFactorSign(target: real, m: real, stiffness: real, stepCoef: real)
    requires 0.0 < m
    ensures target == m ==> CorrectionFactor(target, m, stiffness, stepCoef) == 0.0
    ensures 0.0 < stiffness && 0.0 < stepCoef && target < m ==> CorrectionFactor(target, m, stiffness, stepCoef) < 0.0
    ensures 0.0 < stiffness && 0.0 < stepCoef && m < target ==> 0.0 < CorrectionFactor(target, m, stiffness, stepCoef)
  {
    var q := (target - m) / m;
    if 0.0 < stiffness && 0.0 < stepCoef {
      if target < m {
        DivNeg(target - m, m);
        MulNegPos(q, stiffness);
        MulNegPos(q * stiffness, stepCoef);
      } else if m < target {
        DivPos(target - m, m);
        MulPos(q, stiffness);
        MulPos(q * stiffness, stepCoef);
      }
    }
  }

  lemma CorrectionFactorAtTarget(target: real, m: real, stiffness: real, stepCoef: real)
    requires m != 0.0 && target == m
    ensures CorrectionFactor(target, m, stiffness, stepCoef) == 0.0
  {
  }

  // ------------------------------------------------------------ distance

  /** `DistanceConstraint.relax`. The source divides by the squared
      separation, so the two particles must not coincide. The correction is
      equal and opposite, rescales the separation by `1 + 2f` for the
      correction factor `f` of the squared lengths, and vanishes when the
      squared separation already equals the squared rest distance. */
  function RelaxDistance(ps: seq<Particle>, k: Constraint, stepCoef: real): (r: seq<Particle>)
    requires k.DistanceConstraint? && InRange(k, |ps|)
    requires Length2(Separation(ps, k.a, k.b)) != 0.0
    ensures OnlyMoves(ps, r, {k.a, k.b})
    ensures k.a != k.b ==> Add(r[k.a].pos, r[k.b].pos) == Add(ps[k.a].pos, ps[k.b].pos)
    ensures k.a != k.b ==>
              var f := CorrectionFactor(Sq(k.distance), Length2(Separation(ps, k.a, k.b)), k.stiffness, stepCoef);
              Separation(r, k.a, k.b) == Scale(Separation(ps, k.a, k.b), 1.0 + 2.0 * f)
  {
    DisplaceAlong(ps, k.a, k.b, CorrectionFactor(Sq(k.distance), Length2(Separation(ps, k.a, k.b)), k.stiffness, stepCoef))
  }

  /** A distance constraint whose squared separation already equals the
      squared rest distance moves nothing. */
  lemma RelaxDistanceAtRest(ps: seq<Particle>, k: Constraint, stepCoef: real)
    requires k.DistanceConstraint? && InRange(k, |ps|)
    requires Length2(Separation(ps, k.a, k.b)) != 0.0
    requires Length2(Separation(ps, k.a, k.b)) == Sq(k.distance)
    ensures RelaxDistance(ps, k, stepCoef) == ps
  {
    CorrectionFactorAtTarget(Sq(k.distance), Length2(Separation(ps, k.a, k.b)), k.stiffness, stepCoef);
  }

  // ----------------------------------------------------------- collision

  /** `r1 + r2`, the distance below which two particles collide. */
  function MinDistance(ps: seq<Particle>, a: nat, b: nat): real
    requires a < |ps| && b < |ps|
  {
    EffectiveRadius(ps[a]) + EffectiveRadius(ps[b])
  }

  /** `CollisionConstraint.relax`. Particles at least `r1 + r2` apart are
      left alone; closer ones get an equal and opposite correction along
      their separation. The source divides by the distance when it fires,
      so a firing constraint must not have coincident particles. */
  function RelaxCollision(ps: seq<Particle>, k: Constraint, stepCoef: real, m: MathLib): (r: seq<Particle>)
    requires k.CollisionConstraint? && InRange(k, |ps|)
    requires Length(Separation(ps, k.a, k.b), m) < MinDistance(ps, k.a, k.b) ==> Length(Separation(ps, k.a, k.b), m) != 0.0
    ensures OnlyMoves(ps, r, {k.a, k.b})
    ensures k.a != k.b ==> Add(r[k.a].pos, r[k.b].pos) == Add(ps[k.a].pos, ps[k.b].pos)
    ensures MinDistance(ps, k.a, k.b) <= Length(Separation(ps, k.a, k.b), m) ==> r == ps
    ensures k.a != k.b && Length(Separation(ps, k.a, k.b), m) < MinDistance(ps, k.a, k.b) ==>
              var len := Length(Separation(ps, k.a, k.b), m);
              var f := CorrectionFactor(MinDistance(ps, k.a, k.b), len, k.stiffness, stepCoef);
              Separation(r, k.a, k.b) == Scale(Separation(ps, k.a, k.b), 1.0 + 2.0 * f)
  {
    var len := Length(Separation(ps, k.a, k.b), m);
    var minDistance := MinDistance(ps, k.a, k.b);
    if len < minDistance then
      DisplaceAlong(ps, k.a, k.b, CorrectionFactor(minDistance, len, k.stiffness, stepCoef))
    else
      ps
  }

  /** A firing collision constraint with positive stiffness and step
      coefficient pushes its particles apart: the separation grows by a
      factor greater than one. */
  lemma CollisionPushesApart(ps: seq<Particle>, k: Constraint, stepCoef: real, m: MathLib)
    requires k.CollisionConstraint? && InRange(k, |ps|) && k.a != k.b
    requires SqrtLaws(m) && 0.0 < k.stiffness && 0.0 < stepCoef
    requires Length(Separation(ps, k.a, k.b), m) < MinDistance(ps, k.a, k.b)
    requires Length(Separation(ps, k.a, k.b), m) != 0.0
    ensures exists g: real :: 1.0 < g
              && Separation(RelaxCollision(ps, k, stepCoef, m), k.a, k.b) == Scale(Separation(ps, k.a, k.b), g)
  {
    var len := Length(Separation(ps, k.a, k.b), m);
    var f := CorrectionFactor(MinDistance(ps, k.a, k.b), len, k.stiffness, stepCoef);
    CorrectionFactorSign(MinDistance(ps, k.a, k.b), len, k.stiffness, stepCoef);
    assert 1.0 < 1.0 + 2.0 * f;
    assert Separation(RelaxCollision(ps, k, stepCoef, m), k.a, k.b) == Scale(Separation(ps, k.a, k.b), 1.0 + 2.0 * f);
  }

  // ----------------------------------------------------------------- pin

  /** `PinConstraint.relax`: puts the particle exactly on the pin, whatever
      the step coefficient; nothing else moves. */
  function RelaxPin(ps: seq<Particle>, k: Constraint): (r: seq<Particle>)
    requires k.PinConstraint? && InRange(k, |ps|)
    ensures OnlyMoves(ps, r, {k.a})
    ensures r[k.a].pos == k.pos
  {
    SetPos(ps, k.a, MutableSet(ps[k.a].pos, k.pos))
  }

  /** Relaxing a pin twice is relaxing it once. */
  lemma RelaxPinIdempotent(ps: seq<Particle>, k: Constraint)
    requires k.PinConstraint? && InRange(k, |ps|)
    ensures RelaxPin(RelaxPin(ps, k), k) == RelaxPin(ps, k)
  {
    var r := RelaxPin(ps, k);
    assert r[k.a := r[k.a].(pos := k.pos)] == r;
  }

  // --------------------------------------------------------------- angle

  /** The wrap-around of `AngleConstraint.relax`: adds or subtracts one turn
      at most, and brings any error within three half-turns of zero into
      `[-π, π]`. */
  function WrapAngle(d: real): (r: real)
    ensures r == d || r == d + 2.0 * PI || r == d - 2.0 * PI
    ensures -3.0 * PI < d < 3.0 * PI ==> -PI <= r <= PI
    ensures -PI < d < PI ==> r == d
  {
    if d <= -PI then d + 2.0 * PI
    else if d >= PI then d - 2.0 * PI
    else d
  }

  /** The rotation `relax` applies: the wrapped error from the rest angle,
      times `stepCoef · stiffness`. It vanishes at the rest angle, and an
      error within three half-turns gives at most half a turn times
      `|stepCoef · stiffness|`. */
  function AngleStep(ps: seq<Particle>, k: Constraint, stepCoef: real, m: MathLib): (r: real)
    requires k.AngleConstraint? && InRange(k, |ps|)
    ensures Angle2(ps[k.b].pos, ps[k.a].pos, ps[k.c].pos, m) == k.angle ==> r == 0.0
    ensures var err := Angle2(ps[k.b].pos, ps[k.a].pos, ps[k.c].pos, m) - k.angle;
            -3.0 * PI < err < 3.0 * PI ==> Abs(r) <= PI * Abs(stepCoef * k.stiffness)
  {
    var err := Angle2(ps[k.b].pos, ps[k.a].pos, ps[k.c].pos, m) - k.angle;
    var coef := stepCoef * k.stiffness;
    WrappedStep(err, coef);
    WrapAngle(err) * coef
  }

  /** The wrapped error times a coefficient: zero for no error, and at most
      half a turn times the coefficient for an error within three
      half-turns. */
  lemma WrappedStep(d: real, c: real)
    ensures d == 0.0 ==> WrapAngle(d) * c == 0.0
    ensures -3.0 * PI < d < 3.0 * PI ==> Abs(WrapAngle(d) * c) <= PI * Abs(c)
  {
    if -3.0 * PI < d < 3.0 * PI {
      AbsMulBound(WrapAngle(d), c, PI);
    }
  }

  /** `AngleConstraint.relax`: rotates `a` about `b` by the step, `c` about
      `b` by minus the step, then `b` about the new `a` and about the new
      `c`. Only the three particles move, and when the step is zero and
      `cos 0 = 1`, `sin 0 = 0`, nothing moves at all. */
  function RelaxAngle(ps: seq<Particle>, k: Constraint, stepCoef: real, m: MathLib): (r: seq<Particle>)
    requires k.AngleConstraint? && InRange(k, |ps|)
    ensures OnlyMoves(ps, r, {k.a, k.b, k.c})
    ensures TrigAtZero(m) && AngleStep(ps, k, stepCoef, m) == 0.0 ==> r == ps
  {
    var diff := AngleStep(ps, k, stepCoef, m);
    var ps1 := SetPos(ps, k.a, Rotate(ps[k.a].pos, ps[k.b].pos, diff, m));
    var ps2 := SetPos(ps1, k.c, Rotate(ps1[k.c].pos, ps1[k.b].pos, -diff, m));
    var ps3 := SetPos(ps2, k.b, Rotate(ps2[k.b].pos, ps2[k.a].pos, diff, m));
    SetPos(ps3, k.b, Rotate(ps3[k.b].pos, ps3[k.c].pos, -diff, m))
  }

  /** When the angle at `b` equals the rest angle the step is zero. */
  lemma AngleStepAtRest(ps: seq<Particle>, k: Constraint, stepCoef: real, m: MathLib)
    requires k.AngleConstraint? && InRange(k, |ps|)
    requires Angle2(ps[k.b].pos, ps[k.a].pos, ps[k.c].pos, m) == k.angle
    ensures AngleStep(ps, k, stepCoef, m) == 0.0
  {
    assert WrapAngle(0.0) == 0.0;
  }

  /** A freshly made angle constraint is at rest: relaxing it at once moves
      nothing, given `cos 0 = 1` and `sin 0 = 0`. */
  lemma NewAngleAtRest(ps: seq<Particle>, a: nat, b: nat, c: nat, stiffness: real, stepCoef: real, m: MathLib)
    requires a < |ps| && b < |ps| && c < |ps| && TrigAtZero(m)
    ensures RelaxAngle(ps, NewAngle(ps, a, b, c, stiffness, m), stepCoef, m) == ps
  {
    AngleStepAtRest(ps, NewAngle(ps, a, b, c, stiffness, m), stepCoef, m);
  }

  // ------------------------------------------------------------- min/max

  /** `MinMaxDistanceConstraint.relax`. A distance within `[min, max]` is
      left alone; below `min` the separation is corrected towards `min`,
      above `max` towards `max`, equal and opposite. The source divides by
      the distance when it corrects, so a correcting constraint must not
      have coincident particles. */
  function RelaxMinMax(ps: seq<Particle>, k: Constraint, stepCoef: real, m: MathLib): (r: seq<Particle>)
    requires k.MinMaxDistanceConstraint? && InRange(k, |ps|)
    requires var len := Length(Separation(ps, k.a, k.b), m);
             len < k.minDistance || len > k.maxDistance ==> len != 0.0
    ensures OnlyMoves(ps, r, {k.a, k.b})
    ensures k.a != k.b ==> Add(r[k.a].pos, r[k.b].pos) == Add(ps[k.a].pos, ps[k.b].pos)
    ensures var len := Length(Separation(ps, k.a, k.b), m);
            k.minDistance <= len <= k.maxDistance ==> r == ps
    ensures var len := Length(Separation(ps, k.a, k.b), m);
            k.a != k.b && len < k.minDistance ==>
              var f := CorrectionFactor(k.minDistance, len, k.stiffness, stepCoef);
              Separation(r, k.a, k.b) == Scale(Separation(ps, k.a, k.b), 1.0 + 2.0 * f)
    ensures var len := Length(Separation(ps, k.a, k.b), m);
            k.a != k.b && k.minDistance <= len && len > k.maxDistance ==>
              var f := CorrectionFactor(k.maxDistance, len, k.stiffness, stepCoef);
              Separation(r, k.a, k.b) == Scale(Separation(ps, k.a, k.b), 1.0 + 2.0 * f)
  {
    var len := Length(Separation(ps, k.a, k.b), m);
    if len < k.minDistance then
      DisplaceAlong(ps, k.a, k.b, CorrectionFactor(k.minDistance, len, k.stiffness, stepCoef))
    else if len > k.maxDistance then
      DisplaceAlong(ps, k.a, k.b, CorrectionFactor(k.maxDistance, len, k.stiffness, stepCoef))
    else
      ps
  }

  /** Pulling towards a positive target shorter than the separation, with
      `stiffness · stepCoef ≤ 1`, never corrects by the whole separation or
      more: the particles do not cross over. */
  lemma PullFactorBound(target: real, len: real, stiffness: real, stepCoef: real)
    requires 0.0 < target < len
    requires 0.0 < stiffness && 0.0 < stepCoef && stiffness * stepCoef <= 1.0
    ensures -1.0 < CorrectionFactor(target, len, stiffness, stepCoef) < 0.0
  {
    var q := (target - len) / len;
    assert (q + 1.0) * len == target;
    FactorPos(q + 1.0, len);
    DivNeg(target - len, len);
    var sc := stiffness * stepCoef;
    assert q * stiffness * stepCoef == q * sc;
    assert q * (sc - 1.0) >= 0.0 by {
      MulNonPos(q, sc - 1.0);
    }
    assert q <= q * sc;
    CorrectionFactorSign(target, len, stiffness, stepCoef);
  }

  /** With positive stiffness and step coefficient, a min/max constraint
      pushes its particles apart below `min` and pulls them together above
      `max`. */
  lemma MinMaxDirection(ps: seq<Particle>, k: Constraint, stepCoef: real, m: MathLib)
    requires k.MinMaxDistanceConstraint? && InRange(k, |ps|) && k.a != k.b
    requires SqrtLaws(m) && 0.0 < k.stiffness && 0.0 < stepCoef
    requires var len := Length(Separation(ps, k.a, k.b), m);
             len < k.minDistance || len > k.maxDistance
    requires Length(Separation(ps, k.a, k.b), m) != 0.0
    ensures var len := Length(Separation(ps, k.a, k.b), m);
            exists g: real ::
              && (len < k.minDistance ==> 1.0 < g)
              && (k.minDistance <= len ==> g < 1.0)
              && (k.minDistance <= len && 0.0 < k.maxDistance && k.stiffness * stepCoef <= 1.0 ==> -1.0 < g)
              && Separation(RelaxMinMax(ps, k, stepCoef, m), k.a, k.b) == Scale(Separation(ps, k.a, k.b), g)
  {
    var len := Length(Separation(ps, k.a, k.b), m);
    if len < k.minDistance {
      CorrectionFactorSign(k.minDistance, len, k.stiffness, stepCoef);
      var f := CorrectionFactor(k.minDistance, len, k.stiffness, stepCoef);
      assert 1.0 < 1.0 + 2.0 * f;
      assert Separation(RelaxMinMax(ps, k, stepCoef, m), k.a, k.b) == Scale(Separation(ps, k.a, k.b), 1.0 + 2.0 * f);
    } else {
      CorrectionFactorSign(k.maxDistance, len, k.stiffness, stepCoef);
      var f := CorrectionFactor(k.maxDistance, len, k.stiffness, stepCoef);
      assert 1.0 + 2.0 * f < 1.0;
      if 0.0 < k.maxDistance && k.stiffness * stepCoef <= 1.0 {
        PullFactorBound(k.maxDistance, len, k.stiffness, stepCoef);
      }
      assert Separation(RelaxMinMax(ps, k, stepCoef, m), k.a, k.b) == Scale(Separation(ps, k.a, k.b), 1.0 + 2.0 * f);
    }
  }

  // ------------------------------------------------------------ dispatch

  /** The configurations on which the source divides by zero: a distance
      constraint whose particles coincide, and a collision or min/max
      constraint that fires at distance zero. */
  predicate Degenerate(ps: seq<Particle>, k: Constraint, m: MathLib)
    requires InRange(k, |ps|)
  {
    match k
    case DistanceConstraint(a, b, _, _) => Length2(Separation(ps, a, b)) == 0.0
    case CollisionConstraint(a, b, _) =>
      var len := Length(Separation(ps, a, b), m);
      len < MinDistance(ps, a, b) && len == 0.0
    case MinMaxDistanceConstraint(a, b, lo, hi, _) =>
      var len := Length(Separation(ps, a, b), m);
      (len < lo || len > hi) && len == 0.0
    case _ => false
  }

  /** `constraint.relax(stepCoef)` for any kind. `None` stands for the
      NaN positions the source produces on a degenerate configuration;
      otherwise only the constraint's own particles move. */
  function Relax(ps: seq<Particle>, k: Constraint, stepCoef: real, m: MathLib): (r: Option<seq<Particle>>)
    requires InRange(k, |ps|)
    ensures r.None? <==> Degenerate(ps, k, m)
    ensures r.Some? ==> OnlyMoves(ps, r.value, Indices(k))
    ensures k.PinConstraint? ==> r == Some(RelaxPin(ps, k))
  {
    if Degenerate(ps, k, m) then None
    else
      match k
      case DistanceConstraint(_, _, _, _) => Some(RelaxDistance(ps, k, stepCoef))
      case CollisionConstraint(_, _, _) => Some(RelaxCollision(ps, k, stepCoef, m))
      case PinConstraint(_, _) => Some(RelaxPin(ps, k))
      case AngleConstraint(_, _, _, _, _) => Some(RelaxAngle(ps, k, stepCoef, m))
      case MinMaxDistanceConstraint(_, _, _, _, _) => Some(RelaxMinMax(ps, k, stepCoef, m))
  }
}
