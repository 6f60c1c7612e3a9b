/** The `VerletJS` world of `verlet.ts` and its per-frame step.

    A frame runs four phases in order: Verlet integration of every particle,
    the drag override that puts the dragged entity on the mouse, `step`
    rounds of constraint relaxation per composite, and the clamp of every
    particle into the canvas. The step is a function from world to world;
    `None` stands for a frame in which some constraint divided by zero. */
module Simulation {
  import opened Optional
  import opened RealMath
  import opened Vectors
  import opened Particles
  import opened Constraints
  import opened Composites

  /** What the mouse can hold: a particle, or a pin constraint. Both are
      named by the composite they belong to and their index in it. */
  datatype Entity =
    | ParticleAt(composite: nat, particle: nat)
    | PinAt(composite: nat, constraint: nat)

  datatype World = World(
    width: real,
    height: real,
    gravity: Vec2,
    friction: real,
    groundFriction: real,
    composites: seq<Composite>,
    mouse: Vec2,
    draggedEntity: Option<Entity>,
    selectionRadius: real)

  predicate ValidEntity(cs: seq<Composite>, e: Entity)
  {
    match e
    case ParticleAt(ci, pi) => ci < |cs| && pi < |cs[ci].particles|
    case PinAt(ci, k) => ci < |cs| && k < |cs[ci].constraints| && cs[ci].constraints[k].PinConstraint?
  }

  /** Every composite is valid and the dragged entity, if any, exists. */
  predicate WellFormed(w: World)
  {
    && (forall ci :: 0 <= ci < |w.composites| ==> Valid(w.composites[ci]))
    && (w.draggedEntity.Some? ==> ValidEntity(w.composites, w.draggedEntity.value))
  }

  /** `new VerletJS(width, height)`: no composites, nothing dragged, and the
      engine's default gravity, friction, ground friction, mouse position
      and selection radius. */
  function NewWorld(width: real, height: real): (w: World)
    ensures w.width == width && w.height == height
    ensures w.composites == [] && w.draggedEntity == None
    ensures w.gravity == Vec2(0.0, 0.2) && w.friction == 0.99 && w.groundFriction == 0.8
    ensures w.mouse == Zero && w.selectionRadius == 20.0
    ensures WellFormed(w)
  {
    World(width, height, NewVec2(Some(0.0), Some(0.2)), 0.99, 0.8, [], NewVec2(Some(0.0), Some(0.0)), None, 20.0)
  }

  // -------------------------------------------------------------- bounds

  /** The region `bounds` clamps into: at most `height - 1` down, at most
      `width - 1` across, and not left of zero when the canvas is at least
      one unit wide. There is no bound above. */
  predicate InBounds(v: Vec2, width: real, height: real)
  {
    v.y <= height - 1.0 && v.x <= width - 1.0 && (1.0 <= width ==> 0.0 <= v.x)
  }

  /** `VerletJS.bounds`: clamps `y` from below the floor, then `x` into
      `[0, width - 1]`; `lastPos` is untouched, a `y` above the canvas is
      kept, and a particle already inside is left alone. */
  function Bounds(p: Particle, width: real, height: real): (r: Particle)
    ensures InBounds(r.pos, width, height)
    ensures r.lastPos == p.lastPos && r.radius == p.radius
    ensures p.pos.y <= height - 1.0 ==> r.pos.y == p.pos.y
    ensures InBounds(p.pos, width, height) && 0.0 <= p.pos.x ==> r == p
  {
    var p1 := if p.pos.y > height - 1.0 then p.(pos := p.pos.(y := height - 1.0)) else p;
    var p2 := if p1.pos.x < 0.0 then p1.(pos := p1.pos.(x := 0.0)) else p1;
    if p2.pos.x > width - 1.0 then p2.(pos := p2.pos.(x := width - 1.0)) else p2
  }

  /** Clamping twice is clamping once, also on a canvas narrower than one
      unit, where the two `x` clamps disagree. */
  lemma BoundsIdempotent(p: Particle, width: real, height: real)
    ensures Bounds(Bounds(p, width, height), width, height) == Bounds(p, width, height)
  {
    var q := Bounds(p, width, height);
    if width < 1.0 {
      assert q.pos.x == width - 1.0;
    }
  }

  // ---------------------------------------------------------- integration

  /** The ground-friction test: the particle is on or below the floor and
      its damped velocity is not negligible. */
  predicate OnGround(p: Particle, w: World)
  {
    p.pos.y >= w.height - 1.0 && Length2(Scale(Velocity(p), w.friction)) > 0.000001
  }

  /** The ground-friction branch: the velocity is normalised by its length
      and scaled back by `length · groundFriction`, which over the reals is
      the velocity scaled by `groundFriction`. */
  function GroundFriction(v: Vec2, groundFriction: real, m: MathLib): (r: Vec2)
    requires SqrtLaws(m) && Length2(v) > 0.000001
    ensures r == Scale(v, groundFriction)
  {
    var len := Length(v, m);
    assert 0.0 < len;
    var u := v.(x := v.x / len).(y := v.y / len);
    CancelDiv(v.x, len, groundFriction);
    CancelDiv(v.y, len, groundFriction);
    MutableScale(u, len * groundFriction)
  }

  /** One particle's integration: `lastPos` becomes the old `pos`, and the
      new `pos` is the old one plus gravity plus the damped velocity, damped
      once more by ground friction on the floor. */
  function Integrate(p: Particle, w: World, m: MathLib): (r: Particle)
    requires SqrtLaws(m)
    ensures r.lastPos == p.pos && r.radius == p.radius
    ensures !OnGround(p, w) ==> r.pos == Add(Add(p.pos, w.gravity), Scale(Velocity(p), w.friction))
    ensures OnGround(p, w) ==>
              r.pos == Add(Add(p.pos, w.gravity), Scale(Scale(Velocity(p), w.friction), w.groundFriction))
  {
    var velocity := Scale(Sub(p.pos, p.lastPos), w.friction);
    var v := if OnGround(p, w) then GroundFriction(velocity, w.groundFriction, m) else velocity;
    var lastPos := MutableSet(p.lastPos, p.pos);
    var pos := MutableAdd(MutableAdd(p.pos, w.gravity), v);
    p.(pos := pos, lastPos := lastPos)
  }

  /** A particle at rest only falls: its next position is its position plus
      gravity. */
  lemma IntegrateAtRest(p: Particle, w: World, m: MathLib)
    requires SqrtLaws(m) && p.pos == p.lastPos
    ensures Integrate(p, w, m).pos == Add(p.pos, w.gravity)
    ensures Velocity(Integrate(p, w, m)) == w.gravity
  {
    assert Velocity(p) == Zero;
    assert Scale(Zero, w.friction) == Zero;
  }

  function IntegrateComposite(c: Composite, w: World, m: MathLib): (r: Composite)
    requires SqrtLaws(m)
    ensures r.constraints == c.constraints && |r.particles| == |c.particles|
    ensures forall pi :: 0 <= pi < |c.particles| ==> r.particles[pi] == Integrate(c.particles[pi], w, m)
  {
    c.(particles := seq(|c.particles|, pi requires 0 <= pi < |c.particles| => Integrate(c.particles[pi], w, m)))
  }

  /** The integration pass over every particle of every composite. */
  function IntegrateAll(w: World, m: MathLib): (r: World)
    requires SqrtLaws(m)
    ensures r.(composites := w.composites) == w
    ensures |r.composites| == |w.composites|
    ensures forall ci :: 0 <= ci < |w.composites| ==> r.composites[ci] == IntegrateComposite(w.composites[ci], w, m)
  {
    w.(composites := seq(|w.composites|, ci requires 0 <= ci < |w.composites| => IntegrateComposite(w.composites[ci], w, m)))
  }

  // ------------------------------------------------------------- dragging

  /** `c'` has as many particles as `c`, with the same radii, and the same
      constraints, except that the positions of pins may differ. */
  ghost predicate SameWiring(c: Composite, c': Composite)
  {
    && |c'.particles| == |c.particles|
    && (forall pi :: 0 <= pi < |c.particles| ==> c'.particles[pi].radius == c.particles[pi].radius)
    && |c'.constraints| == |c.constraints|
    && (forall k :: 0 <= k < |c.constraints| ==>
          c'.constraints[k] == c.constraints[k]
          || (c.constraints[k].PinConstraint? && c'.constraints[k].PinConstraint? && c'.constraints[k].a == c.constraints[k].a))
  }

  ghost predicate SameWorldWiring(cs: seq<Composite>, cs': seq<Composite>)
  {
    |cs'| == |cs| && forall ci :: 0 <= ci < |cs| ==> SameWiring(cs[ci], cs'[ci])
  }

  /** Every particle of `cs'` has the previous position of its counterpart
      in `cs`. */
  ghost predicate KeepsLastPos(cs: seq<Composite>, cs': seq<Composite>)
  {
    && |cs'| == |cs|
    && (forall ci :: 0 <= ci < |cs| ==> |cs'[ci].particles| == |cs[ci].particles|)
    && (forall ci, pi :: 0 <= ci < |cs| && 0 <= pi < |cs[ci].particles| ==>
          cs'[ci].particles[pi].lastPos == cs[ci].particles[pi].lastPos)
  }

  lemma SameWiringValid(c: Composite, c': Composite)
    requires Valid(c) && SameWiring(c, c')
    ensures Valid(c')
  {
    forall k | 0 <= k < |c'.constraints|
      ensures InRange(c'.constraints[k], |c'.particles|)
    {
      assert InRange(c.constraints[k], |c.particles|);
    }
  }

  /** The drag override: the dragged particle, or the dragged pin's stored
      position, is set to the mouse. Nothing else changes. */
  function Drag(w: World): (r: World)
    requires WellFormed(w)
    ensures r.(composites := w.composites) == w
    ensures SameWorldWiring(w.composites, r.composites)
    ensures KeepsLastPos(w.composites, r.composites)
    ensures w.draggedEntity.None? ==> r == w
    ensures w.draggedEntity.Some? && w.draggedEntity.value.ParticleAt? ==>
              var e := w.draggedEntity.value;
              r.composites[e.composite].particles[e.particle] == w.composites[e.composite].particles[e.particle].(pos := w.mouse)
    ensures forall ci, pi ::
              (0 <= ci < |w.composites| && 0 <= pi < |w.composites[ci].particles| &&
               w.draggedEntity != Some(ParticleAt(ci, pi))) ==>
              r.composites[ci].particles[pi] == w.composites[ci].particles[pi]
    ensures forall ci, k ::
              (0 <= ci < |w.composites| && 0 <= k < |w.composites[ci].constraints| &&
               w.draggedEntity != Some(PinAt(ci, k))) ==>
              r.composites[ci].constraints[k] == w.composites[ci].constraints[k]
    ensures w.draggedEntity.Some? && w.draggedEntity.value.PinAt? ==>
              var e := w.draggedEntity.value;
              r.composites[e.composite].constraints[e.constraint] == PinConstraint(w.composites[e.composite].constraints[e.constraint].a, w.mouse)
    ensures WellFormed(r)
  {
    match w.draggedEntity
    case None => w
    case Some(ParticleAt(ci, pi)) =>
      var c := w.composites[ci];
      var c' := c.(particles := SetPos(c.particles, pi, MutableSet(c.particles[pi].pos, w.mouse)));
      assert SameWiring(c, c');
      SameWiringValid(c, c');
      w.(composites := w.composites[ci := c'])
    case Some(PinAt(ci, k)) =>
      var c := w.composites[ci];
      var pin := c.constraints[k];
      var c' := c.(constraints := c.constraints[k := pin.(pos := MutableSet(pin.pos, w.mouse))]);
      assert SameWiring(c, c');
      SameWiringValid(c, c');
      w.(composites := w.composites[ci := c'])
  }

  // ----------------------------------------------------------- relaxation

  /** Some constraint of `cs` refers to particle `i`. */
  ghost predicate RefersTo(cs: seq<Constraint>, i: nat)
  {
    exists k :: 0 <= k < |cs| && i in Indices(cs[k])
  }

  /** The particles some constraint of `cs` refers to, and no others. */
  function Touched(cs: seq<Constraint>): (r: set<nat>)
    ensures forall k :: 0 <= k < |cs| ==> Indices(cs[k]) <= r
    ensures forall i :: i in r <==> RefersTo(cs, i)
  {
    if |cs| == 0 then {}
    else
      var r := Indices(cs[0]) + Touched(cs[1..]);
      assert forall i :: i in r <==> RefersTo(cs, i) by {
        forall i: nat
          ensures i in r <==> RefersTo(cs, i)
        {
          if i in Touched(cs[1..]) {
            var k :| 0 <= k < |cs[1..]| && i in Indices(cs[1..][k]);
            assert cs[1..][k] == cs[k + 1];
          }
          if RefersTo(cs, i) {
            var k :| 0 <= k < |cs| && i in Indices(cs[k]);
            if 0 < k {
              assert cs[k] == cs[1..][k - 1];
            }
          }
        }
      }
      r
  }

  predicate AllInRange(cs: seq<Constraint>, n: nat)
  {
    forall k :: 0 <= k < |cs| ==> InRange(cs[k], n)
  }

  lemma OnlyMovesTrans(ps: seq<Particle>, ps': seq<Particle>, ps'': seq<Particle>, s: set<nat>, t: set<nat>)
    requires OnlyMoves(ps, ps', s) && OnlyMoves(ps', ps'', t)
    ensures OnlyMoves(ps, ps'', s + t)
  {
  }

  /** One sweep: `relax(stepCoef)` of every constraint in list order, each
      on the particles the previous one left. Only particles some constraint
      refers to move. */
  function RelaxSweep(ps: seq<Particle>, cs: seq<Constraint>, stepCoef: real, m: MathLib): (r: Option<seq<Particle>>)
    requires AllInRange(cs, |ps|)
    ensures r.Some? ==> OnlyMoves(ps, r.value, Touched(cs))
    ensures |cs| == 0 ==> r == Some(ps)
    decreases |cs|
  {
    if |cs| == 0 then Some(ps)
    else
      match Relax(ps, cs[0], stepCoef, m)
      case None => None
      case Some(ps1) =>
        var r := RelaxSweep(ps1, cs[1..], stepCoef, m);
        assert r.Some? ==> OnlyMoves(ps, r.value, Touched(cs)) by {
          if r.Some? {
            OnlyMovesTrans(ps, ps1, r.value, Indices(cs[0]), Touched(cs[1..]));
          }
        }
        r
  }

  /** The sweep reaches constraint `j` and that constraint divides by
      zero. */
  ghost predicate FailsAt(ps: seq<Particle>, cs: seq<Constraint>, stepCoef: real, m: MathLib, j: nat)
    requires AllInRange(cs, |ps|) && j < |cs|
  {
    var before := RelaxSweep(ps, cs[..j], stepCoef, m);
    before.Some? && Degenerate(before.value, cs[j], m)
  }

  /** After a first constraint that succeeds, the sweep over the first `j`
      constraints continues as the sweep over the rest. */
  lemma SweepPrefixStep(ps: seq<Particle>, ps1: seq<Particle>, cs: seq<Constraint>, stepCoef: real, m: MathLib, j: nat)
    requires AllInRange(cs, |ps|) && 0 < j <= |cs|
    requires Relax(ps, cs[0], stepCoef, m) == Some(ps1)
    ensures |ps1| == |ps| && AllInRange(cs[1..], |ps1|)
    ensures RelaxSweep(ps, cs[..j], stepCoef, m) == RelaxSweep(ps1, cs[1..][..j - 1], stepCoef, m)
  {
    var pre := cs[..j];
    assert pre[0] == cs[0];
    assert pre[1..] == cs[1..][..j - 1];
  }

  /** A failure of the sweep after the first constraint is a failure of
      the whole sweep, one position later. */
  lemma FailsAtShift(ps: seq<Particle>, ps1: seq<Particle>, cs: seq<Constraint>, stepCoef: real, m: MathLib, j: nat)
    requires AllInRange(cs, |ps|) && j + 1 < |cs|
    requires Relax(ps, cs[0], stepCoef, m) == Some(ps1)
    ensures |ps1| == |ps| && AllInRange(cs[1..], |ps1|)
    ensures FailsAt(ps1, cs[1..], stepCoef, m, j) <==> FailsAt(ps, cs, stepCoef, m, j + 1)
  {
    SweepPrefixStep(ps, ps1, cs, stepCoef, m, j + 1);
    assert cs[1..][j] == cs[j + 1];
  }

  /** A sweep fails exactly when it reaches a constraint that divides by
      zero; until then every constraint is relaxed in turn. */
  lemma {:induction false} SweepFailsIff(ps: seq<Particle>, cs: seq<Constraint>, stepCoef: real, m: MathLib)
    requires AllInRange(cs, |ps|)
    ensures RelaxSweep(ps, cs, stepCoef, m).None? <==>
            exists j: nat :: j < |cs| && FailsAt(ps, cs, stepCoef, m, j)
    decreases |cs|
  {
    if |cs| == 0 {
      return;
    }
    assert cs[..0] == [];
    match Relax(ps, cs[0], stepCoef, m)
    case None =>
      assert FailsAt(ps, cs, stepCoef, m, 0);
    case Some(ps1) =>
      assert !FailsAt(ps, cs, stepCoef, m, 0);
      SweepFailsIff(ps1, cs[1..], stepCoef, m);
      if RelaxSweep(ps, cs, stepCoef, m).None? {
        var j: nat :| j < |cs[1..]| && FailsAt(ps1, cs[1..], stepCoef, m, j);
        FailsAtShift(ps, ps1, cs, stepCoef, m, j);
      } else {
        forall j: nat | 0 < j < |cs|
          ensures !FailsAt(ps, cs, stepCoef, m, j)
        {
          FailsAtShift(ps, ps1, cs, stepCoef, m, j - 1);
        }
      }
  }

  /** A sweep over `cs1 + cs2` is a sweep over `cs1` followed by a sweep
      over `cs2`: constraints are relaxed one after another in list order. */
  lemma {:induction false} RelaxSweepAppend(ps: seq<Particle>, cs1: seq<Constraint>, cs2: seq<Constraint>, stepCoef: real, m: MathLib)
    requires AllInRange(cs1, |ps|) && AllInRange(cs2, |ps|)
    ensures AllInRange(cs1 + cs2, |ps|)
    ensures RelaxSweep(ps, cs1 + cs2, stepCoef, m)
         == match RelaxSweep(ps, cs1, stepCoef, m)
            case None => None
            case Some(ps1) => RelaxSweep(ps1, cs2, stepCoef, m)
    decreases |cs1|
  {
    var cs := cs1 + cs2;
    assert AllInRange(cs, |ps|) by {
      forall k | 0 <= k < |cs|
        ensures InRange(cs[k], |ps|)
      {
        if k < |cs1| {
          assert cs[k] == cs1[k];
        } else {
          assert cs[k] == cs2[k - |cs1|];
        }
      }
    }
    if |cs1| == 0 {
      assert cs == cs2;
    } else {
      assert cs[0] == cs1[0];
      assert cs[1..] == cs1[1..] + cs2;
      match Relax(ps, cs1[0], stepCoef, m)
      case None =>
      case Some(ps1) =>
        RelaxSweepAppend(ps1, cs1[1..], cs2, stepCoef, m);
    }
  }

  /** A pin that closes a sweep holds its particle exactly at the pin. */
  lemma SweepEndsOnPin(ps: seq<Particle>, cs: seq<Constraint>, pin: Constraint, stepCoef: real, m: MathLib)
    requires pin.PinConstraint? && AllInRange(cs, |ps|) && InRange(pin, |ps|)
    requires RelaxSweep(ps, cs, stepCoef, m).Some?
    ensures AllInRange(cs + [pin], |ps|)
    ensures RelaxSweep(ps, cs + [pin], stepCoef, m).Some?
    ensures RelaxSweep(ps, cs + [pin], stepCoef, m).value[pin.a].pos == pin.pos
  {
    RelaxSweepAppend(ps, cs, [pin], stepCoef, m);
    var ps1 := RelaxSweep(ps, cs, stepCoef, m).value;
    assert [pin][1..] == [];
    assert RelaxSweep(ps1, [pin], stepCoef, m) == Some(RelaxPin(ps1, pin));
  }

  /** `n` sweeps in a row. */
  function RelaxRounds(ps: seq<Particle>, cs: seq<Constraint>, n: nat, stepCoef: real, m: MathLib): (r: Option<seq<Particle>>)
    requires AllInRange(cs, |ps|)
    ensures r.Some? ==> OnlyMoves(ps, r.value, Touched(cs))
    ensures n == 0 ==> r == Some(ps)
    decreases n
  {
    if n == 0 then Some(ps)
    else
      match RelaxSweep(ps, cs, stepCoef, m)
      case None => None
      case Some(ps1) =>
        var r := RelaxRounds(ps1, cs, n - 1, stepCoef, m);
        assert r.Some? ==> OnlyMoves(ps, r.value, Touched(cs)) by {
          if r.Some? {
            OnlyMovesTrans(ps, ps1, r.value, Touched(cs), Touched(cs));
          }
        }
        r
  }

  /** The relaxation of one composite: `step` sweeps with coefficient
      `1 / step`. With `step = 0` the loop never runs. */
  function RelaxComposite(c: Composite, step: nat, m: MathLib): (r: Option<Composite>)
    requires Valid(c)
    ensures r.Some? ==> r.value.constraints == c.constraints
    ensures r.Some? ==> OnlyMoves(c.particles, r.value.particles, Touched(c.constraints))
    ensures step == 0 ==> r == Some(c)
  {
    if step == 0 then Some(c)
    else
      match RelaxRounds(c.particles, c.constraints, step, 1.0 / (step as real), m)
      case None => None
      case Some(ps) => Some(c.(particles := ps))
  }

  /** The relaxation phase: each composite is relaxed on its own, so the
      result for one composite depends on that composite alone, and the
      phase fails exactly when some composite's relaxation does. */
  function RelaxAll(cs: seq<Composite>, step: nat, m: MathLib): (r: Option<seq<Composite>>)
    requires forall ci :: 0 <= ci < |cs| ==> Valid(cs[ci])
    ensures r.Some? <==> forall ci :: 0 <= ci < |cs| ==> RelaxComposite(cs[ci], step, m).Some?
    ensures r.Some? ==> |r.value| == |cs|
    ensures r.Some? ==> forall ci :: 0 <= ci < |cs| ==> RelaxComposite(cs[ci], step, m) == Some(r.value[ci])
  {
    if forall ci :: 0 <= ci < |cs| ==> RelaxComposite(cs[ci], step, m).Some? then
      Some(seq(|cs|, ci requires 0 <= ci < |cs| => RelaxComposite(cs[ci], step, m).value))
    else
      None
  }

  /** With no sweeps to run, relaxation succeeds and changes nothing. */
  lemma RelaxAllAtZero(cs: seq<Composite>, step: nat, m: MathLib)
    requires forall ci :: 0 <= ci < |cs| ==> Valid(cs[ci])
    ensures step == 0 ==> RelaxAll(cs, step, m) == Some(cs)
  {
    if step == 0 {
      assert forall ci :: 0 <= ci < |cs| ==> RelaxComposite(cs[ci], step, m) == Some(cs[ci]);
      assert RelaxAll(cs, step, m).value == cs;
    }
  }

  // ---------------------------------------------------------------- frame

  lemma SameWorldWiringTrans(cs: seq<Composite>, cs': seq<Composite>, cs'': seq<Composite>)
    requires SameWorldWiring(cs, cs') && SameWorldWiring(cs', cs'')
    ensures SameWorldWiring(cs, cs'')
  {
  }

  lemma KeepsLastPosTrans(cs: seq<Composite>, cs': seq<Composite>, cs'': seq<Composite>)
    requires KeepsLastPos(cs, cs') && KeepsLastPos(cs', cs'')
    ensures KeepsLastPos(cs, cs'')
  {
  }

  lemma IntegrateAllKeepsWiring(w: World, m: MathLib)
    requires SqrtLaws(m)
    ensures SameWorldWiring(w.composites, IntegrateAll(w, m).composites)
    ensures forall ci, pi :: 0 <= ci < |w.composites| && 0 <= pi < |w.composites[ci].particles| ==>
              IntegrateAll(w, m).composites[ci].particles[pi].lastPos == w.composites[ci].particles[pi].pos
  {
  }

  lemma RelaxAllKeeps(cs: seq<Composite>, step: nat, m: MathLib)
    requires forall ci :: 0 <= ci < |cs| ==> Valid(cs[ci])
    requires RelaxAll(cs, step, m).Some?
    ensures SameWorldWiring(cs, RelaxAll(cs, step, m).value)
    ensures KeepsLastPos(cs, RelaxAll(cs, step, m).value)
  {
    var r := RelaxAll(cs, step, m).value;
    forall ci | 0 <= ci < |cs|
      ensures SameWiring(cs[ci], r[ci])
    {
      assert RelaxComposite(cs[ci], step, m) == Some(r[ci]);
    }
  }

  lemma BoundsAllKeeps(cs: seq<Composite>, width: real, height: real)
    ensures SameWorldWiring(cs, BoundsAll(cs, width, height))
    ensures KeepsLastPos(cs, BoundsAll(cs, width, height))
    ensures forall ci, pi :: 0 <= ci < |cs| && 0 <= pi < |cs[ci].particles| ==>
              InBounds(BoundsAll(cs, width, height)[ci].particles[pi].pos, width, height)
  {
  }

  function BoundsComposite(c: Composite, width: real, height: real): (r: Composite)
    ensures r.constraints == c.constraints && |r.particles| == |c.particles|
    ensures forall pi :: 0 <= pi < |c.particles| ==> r.particles[pi] == Bounds(c.particles[pi], width, height)
  {
    c.(particles := seq(|c.particles|, pi requires 0 <= pi < |c.particles| => Bounds(c.particles[pi], width, height)))
  }

  /** The bounds pass over every particle of every composite. */
  function BoundsAll(cs: seq<Composite>, width: real, height: real): (r: seq<Composite>)
    ensures |r| == |cs|
    ensures forall ci :: 0 <= ci < |cs| ==> r[ci] == BoundsComposite(cs[ci], width, height)
  {
    seq(|cs|, ci requires 0 <= ci < |cs| => BoundsComposite(cs[ci], width, height))
  }

  /** `VerletJS.frame(step)`: integration, drag override, `step` relaxation
      sweeps per composite, bounds. A completed frame keeps every world
      setting and the wiring of every composite, leaves each particle's
      `lastPos` at its position before the frame and every particle inside
      the bounds, and holds the dragged pin at the mouse. */
  function Frame(w: World, step: nat, m: MathLib): (r: Option<World>)
    requires WellFormed(w) && SqrtLaws(m)
    ensures r.Some? ==> r.value.(composites := w.composites) == w
    ensures r.Some? ==> SameWorldWiring(w.composites, r.value.composites) && WellFormed(r.value)
    ensures r.Some? ==> forall ci, pi :: 0 <= ci < |w.composites| && 0 <= pi < |w.composites[ci].particles| ==>
              r.value.composites[ci].particles[pi].lastPos == w.composites[ci].particles[pi].pos
    ensures r.Some? ==> forall ci, pi :: 0 <= ci < |w.composites| && 0 <= pi < |w.composites[ci].particles| ==>
              InBounds(r.value.composites[ci].particles[pi].pos, w.width, w.height)
    ensures r.Some? && w.draggedEntity.Some? && w.draggedEntity.value.PinAt? ==>
              var e := w.draggedEntity.value;
              r.value.composites[e.composite].constraints[e.constraint] == PinConstraint(w.composites[e.composite].constraints[e.constraint].a, w.mouse)
    ensures step == 0 ==> r.Some?
  {
    var w1 := IntegrateAll(w, m);
    IntegrateAllKeepsWiring(w, m);
    var w2 := Drag(w1);
    RelaxAllAtZero(w2.composites, step, m);
    match RelaxAll(w2.composites, step, m)
    case None => None
    case Some(cs3) =>
      var cs4 := BoundsAll(cs3, w.width, w.height);
      FrameStages(w, step, m, cs3);
      var r := w2.(composites := cs4);
      Some(r)
  }

  /** The stages of a completed frame, chained: integration, dragging,
      relaxation and clamping keep the world's settings and wiring, every
      particle's previous position becomes its position before the frame,
      every particle ends in bounds and a dragged pin stays on the mouse. */
  lemma FrameStages(w: World, step: nat, m: MathLib, cs3: seq<Composite>)
    requires WellFormed(w) && SqrtLaws(m)
    requires RelaxAll(Drag(IntegrateAll(w, m)).composites, step, m) == Some(cs3)
    ensures var r := Drag(IntegrateAll(w, m)).(composites := BoundsAll(cs3, w.width, w.height));
            && r.(composites := w.composites) == w
            && SameWorldWiring(w.composites, r.composites) && WellFormed(r)
            && (forall ci, pi :: 0 <= ci < |w.composites| && 0 <= pi < |w.composites[ci].particles| ==>
                  r.composites[ci].particles[pi].lastPos == w.composites[ci].particles[pi].pos)
            && (forall ci, pi :: 0 <= ci < |w.composites| && 0 <= pi < |w.composites[ci].particles| ==>
                  InBounds(r.composites[ci].particles[pi].pos, w.width, w.height))
            && (w.draggedEntity.Some? && w.draggedEntity.value.PinAt? ==>
                  var e := w.draggedEntity.value;
                  r.composites[e.composite].constraints[e.constraint] == PinConstraint(w.composites[e.composite].constraints[e.constraint].a, w.mouse))
  {
    IntegrateAllKeepsWiring(w, m);
    FrameChain(w, step, m, cs3);
  }

  /** The composite-level chain behind `FrameStages`. */
  lemma FrameChain(w: World, step: nat, m: MathLib, cs3: seq<Composite>)
    requires WellFormed(w) && SqrtLaws(m)
    requires RelaxAll(Drag(IntegrateAll(w, m)).composites, step, m) == Some(cs3)
    ensures var cs4 := BoundsAll(cs3, w.width, w.height);
            && SameWorldWiring(w.composites, cs4)
            && KeepsLastPos(IntegrateAll(w, m).composites, cs4)
            && forall ci, pi :: 0 <= ci < |cs4| && 0 <= pi < |cs4[ci].particles| ==>
                 InBounds(cs4[ci].particles[pi].pos, w.width, w.height)
  {
    var w1 := IntegrateAll(w, m);
    IntegrateAllKeepsWiring(w, m);
    var w2 := Drag(w1);
    var cs4 := BoundsAll(cs3, w.width, w.height);
    RelaxAllKeeps(w2.composites, step, m);
    BoundsAllKeeps(cs3, w.width, w.height);
    SameWorldWiringTrans(w.composites, w1.composites, w2.composites);
    SameWorldWiringTrans(w.composites, w2.composites, cs3);
    SameWorldWiringTrans(w.composites, cs3, cs4);
    KeepsLastPosTrans(w1.composites, w2.composites, cs3);
    KeepsLastPosTrans(w1.composites, cs3, cs4);
  }

  /** Relaxation sees the same constraint indices before and after a
      change that keeps the wiring. */
  lemma TouchedSameWiring(c: Composite, c': Composite)
    requires SameWiring(c, c')
    ensures Touched(c'.constraints) == Touched(c.constraints)
  {
    forall k | 0 <= k < |c.constraints|
      ensures Indices(c'.constraints[k]) == Indices(c.constraints[k])
    {
    }
    forall i: nat
      ensures i in Touched(c'.constraints) <==> i in Touched(c.constraints)
    {
      if RefersTo(c.constraints, i) {
        var k :| 0 <= k < |c.constraints| && i in Indices(c.constraints[k]);
        assert i in Indices(c'.constraints[k]);
      }
      if RefersTo(c'.constraints, i) {
        var k :| 0 <= k < |c'.constraints| && i in Indices(c'.constraints[k]);
        assert i in Indices(c.constraints[k]);
      }
    }
  }

  /** Where a completed frame leaves a particle that no constraint of its
      composite refers to: integrated, put on the mouse if it is the dragged
      particle, then clamped into the bounds. */
  lemma FrameFreeParticle(w: World, step: nat, m: MathLib, ci: nat, pi: nat)
    requires WellFormed(w) && SqrtLaws(m) && Frame(w, step, m).Some?
    requires ci < |w.composites| && pi < |w.composites[ci].particles|
    requires pi !in Touched(w.composites[ci].constraints)
    ensures var p1 := Integrate(w.composites[ci].particles[pi], w, m);
            var p2 := if w.draggedEntity == Some(ParticleAt(ci, pi)) then p1.(pos := w.mouse) else p1;
            Frame(w, step, m).value.composites[ci].particles[pi] == Bounds(p2, w.width, w.height)
  {
    var w1 := IntegrateAll(w, m);
    IntegrateAllKeepsWiring(w, m);
    var w2 := Drag(w1);
    SameWorldWiringTrans(w.composites, w1.composites, w2.composites);
    var cs3 := RelaxAll(w2.composites, step, m).value;
    var c2 := w2.composites[ci];
    assert RelaxComposite(c2, step, m) == Some(cs3[ci]);
    TouchedSameWiring(w.composites[ci], c2);
    assert cs3[ci].particles[pi] == c2.particles[pi];
    assert Frame(w, step, m).value.composites == BoundsAll(cs3, w.width, w.height);
  }
}
