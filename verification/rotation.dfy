/** `rotation.ts`: turning a particle or a whole composite about a centre.
    Both the position and the previous position are turned, so the motion
    the particle carries (its implicit velocity) turns with it. */
module Rotation {
  import opened RealMath
  import opened Vectors
  import opened Particles
  import opened Composites

  /** `rotateParticle(particle, center, angle)`. */
  function RotateParticle(p: Particle, center: Vec2, angle: real, m: MathLib): (r: Particle)
    ensures r.pos == Rotate(p.pos, center, angle, m)
    ensures r.lastPos == Rotate(p.lastPos, center, angle, m)
    ensures r.radius == p.radius
    ensures p.pos == center && p.lastPos == center ==> r == p
  {
    p.(pos := MutableRotate(p.pos, center, angle, m), lastPos := MutableRotate(p.lastPos, center, angle, m))
  }

  /** `rotateComposite(composite, center, angle)`: every particle turned,
      the constraints untouched. */
  function RotateComposite(c: Composite, center: Vec2, angle: real, m: MathLib): (r: Composite)
    ensures |r.particles| == |c.particles| && r.constraints == c.constraints
    ensures forall i :: 0 <= i < |c.particles| ==> r.particles[i] == RotateParticle(c.particles[i], center, angle, m)
    ensures Valid(c) ==> Valid(r)
  {
    c.(particles := seq(|c.particles|, i requires 0 <= i < |c.particles| => RotateParticle(c.particles[i], center, angle, m)))
  }

  /** The offset between two rotated points is the rotated offset, turned
      about the origin: rotation is a rigid motion. */
  lemma RotateOffset(u: Vec2, v: Vec2, center: Vec2, angle: real, m: MathLib)
    ensures Sub(Rotate(u, center, angle, m), Rotate(v, center, angle, m)) == Rotate(Sub(u, v), Zero, angle, m)
  {
  }

  /** A rotated particle keeps its speed: its velocity is turned by the
      same angle. */
  lemma RotateVelocity(p: Particle, center: Vec2, angle: real, m: MathLib)
    ensures Velocity(RotateParticle(p, center, angle, m)) == Rotate(Velocity(p), Zero, angle, m)
  {
    RotateOffset(p.pos, p.lastPos, center, angle, m);
  }

  /** Where `cos² + sin² = 1` holds at the angle, rotation keeps every
      squared distance. */
  lemma RotatePreservesDist2(u: Vec2, v: Vec2, center: Vec2, angle: real, m: MathLib)
    requires Pythagorean(m, angle)
    ensures Dist2(Rotate(u, center, angle, m), Rotate(v, center, angle, m)) == Dist2(u, v)
  {
    var d := Sub(v, u);
    RotateOffset(v, u, center, angle, m);
    RotationNorm(d.x, d.y, m.cos(angle), m.sin(angle));
  }

  /** Rotating a composite keeps the distance between any two of its
      particles, so rest lengths measured before still hold after. */
  lemma RotateCompositeRigid(c: Composite, center: Vec2, angle: real, m: MathLib, i: nat, j: nat)
    requires Pythagorean(m, angle) && i < |c.particles| && j < |c.particles|
    ensures var r := RotateComposite(c, center, angle, m);
            Dist2(r.particles[i].pos, r.particles[j].pos) == Dist2(c.particles[i].pos, c.particles[j].pos)
  {
    RotatePreservesDist2(c.particles[i].pos, c.particles[j].pos, center, angle, m);
  }

  /** Turning by a zero angle changes nothing. */
  lemma RotateCompositeByZero(c: Composite, center: Vec2, m: MathLib)
    requires TrigAtZero(m)
    ensures RotateComposite(c, center, 0.0, m) == c
  {
    var r := RotateComposite(c, center, 0.0, m);
    assert r.particles == c.particles;
  }
}


