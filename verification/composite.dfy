/** The `Composite` of `verlet.ts`: a body made of particles and the
    constraints between them. Constraints refer to particles by their index
    in `particles`. */
module Composites {
  import opened Optional
  import opened Vectors
  import opened Particles
  import opened Constraints

  datatype Composite = Composite(particles: seq<Particle>, constraints: seq<Constraint>)

  /** `new Composite()`. */
  const Empty: Composite := Composite([], [])

  /** Every constraint refers only to particles of its own composite. */
  predicate Valid(c: Composite)
  {
    forall k :: 0 <= k < |c.constraints| ==> InRange(c.constraints[k], |c.particles|)
  }

  /** `composite.pin(index, pos?)`: appends one pin on particle `index`, at
      `pos` or, when `pos` is omitted, at the particle's current position.
      The particles and the existing constraints are untouched, and the new
      pin is the last constraint. An index outside the particle sequence
      gives `None`. */
  function Pin(c: Composite, index: int, pos: Option<Vec2>): (r: Option<Composite>)
    ensures r.Some? <==> 0 <= index < |c.particles|
    ensures r.Some? ==> r.value.particles == c.particles
    ensures r.Some? ==> |r.value.constraints| == |c.constraints| + 1
    ensures r.Some? ==> r.value.constraints[..|c.constraints|] == c.constraints
    ensures r.Some? ==> var pin := r.value.constraints[|c.constraints|];
                        && pin.PinConstraint?
                        && pin.a == index
                        && (pos.Some? ==> pin.pos == pos.value)
                        && (pos.None? ==> pin.pos == c.particles[index].pos)
    ensures r.Some? && Valid(c) ==> Valid(r.value)
  {
    if 0 <= index < |c.particles| then
      var at := if pos.Some? then pos.value else c.particles[index].pos;
      var r := c.(constraints := c.constraints + [NewPin(index, at)]);
      assert r.constraints[..|c.constraints|] == c.constraints;
      Some(r)
    else
      None
  }
}
