/** The point mass of `verlet.ts`.

    A particle has a current and a previous position; its velocity is
    implicit, the difference of the two. The engine's `Particle` declares no
    style, but the collision rule reads an optional `style.radius` from its
    particles, so the model carries that radius as an optional field. */
module Particles {
  import opened Optional
  import opened Vectors

  datatype Particle = Particle(pos: Vec2, lastPos: Vec2, radius: Option<real>)

  /** `new Particle(pos)`: both positions are copies of the argument, so the
      new particle is at rest, and it has no style radius. */
  function NewParticle(pos: Vec2): (p: Particle)
    ensures p.pos == pos && p.lastPos == pos
    ensures Velocity(p) == Zero
    ensures p.radius.None?
  {
    Particle(MutableSet(Zero, pos), MutableSet(Zero, pos), None)
  }

  /** The implicit velocity `pos - lastPos`. */
  function Velocity(p: Particle): Vec2
  {
    Sub(p.pos, p.lastPos)
  }

  /** `style?.radius || 1`: a missing or zero radius counts as one. */
  function EffectiveRadius(p: Particle): (r: real)
    ensures p.radius.None? ==> r == 1.0
    ensures p.radius.Some? && p.radius.value == 0.0 ==> r == 1.0
    ensures p.radius.Some? && p.radius.value != 0.0 ==> r == p.radius.value
  {
    if p.radius.Some? && p.radius.value != 0.0 then p.radius.value else 1.0
  }

  /** `ps'` differs from `ps` at most in the positions of the particles
      whose indices are in `moved`; previous positions and radii are kept. */
  ghost predicate OnlyMoves(ps: seq<Particle>, ps': seq<Particle>, moved: set<nat>)
  {
    && |ps'| == |ps|
    && (forall i :: 0 <= i < |ps| && i !in moved ==> ps'[i] == ps[i])
    && (forall i :: 0 <= i < |ps| ==> ps'[i].lastPos == ps[i].lastPos && ps'[i].radius == ps[i].radius)
  }

  /** Writes a new position for particle `i`. */
  function SetPos(ps: seq<Particle>, i: nat, pos: Vec2): (r: seq<Particle>)
    requires i < |ps|
    ensures OnlyMoves(ps, r, {i})
    ensures r[i].pos == pos
  {
    ps[i := ps[i].(pos := pos)]
  }
}
