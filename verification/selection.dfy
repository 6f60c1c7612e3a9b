/** `VerletJS.nearestEntity`: what a mouse press at the current mouse
    position would grab.

    The search scans composites in order and, inside each, particles in
    order, keeping the first particle of least squared distance among those
    within the selection radius. If that particle's composite pins it, the
    first such pin is grabbed instead of the particle. */
module Selection {
  import opened Optional
  import opened RealMath
  import opened Vectors
  import opened Constraints
  import opened Composites
  import opened Simulation

  predicate ValidParticle(w: World, ci: int, pi: int)
  {
    0 <= ci < |w.composites| && 0 <= pi < |w.composites[ci].particles|
  }

  /** The squared distance from particle `pi` of composite `ci` to the mouse. */
  function MouseDist2(w: World, ci: int, pi: int): real
    requires ValidParticle(w, ci, pi)
  {
    Dist2(w.composites[ci].particles[pi].pos, w.mouse)
  }

  /** Within the selection radius, boundary included. */
  predicate Selectable(w: World, ci: int, pi: int)
    requires ValidParticle(w, ci, pi)
  {
    MouseDist2(w, ci, pi) <= Sq(w.selectionRadius)
  }

  /** The scan order: composite first, then particle. */
  predicate Before(ci: int, pi: int, cj: int, pj: int)
  {
    ci < cj || (ci == cj && pi < pj)
  }

  /** Particle `(ci, pi)` is selectable, no selectable particle is closer,
      and every selectable particle scanned before it is strictly farther. */
  ghost predicate IsNearest(w: World, ci: int, pi: int)
  {
    && ValidParticle(w, ci, pi)
    && Selectable(w, ci, pi)
    && (forall cj, pj :: ValidParticle(w, cj, pj) && Selectable(w, cj, pj) ==>
          MouseDist2(w, ci, pi) <= MouseDist2(w, cj, pj))
    && (forall cj, pj :: ValidParticle(w, cj, pj) && Selectable(w, cj, pj) && Before(cj, pj, ci, pi) ==>
          MouseDist2(w, ci, pi) < MouseDist2(w, cj, pj))
  }

  ghost predicate NoneSelectable(w: World)
  {
    forall ci, pi :: ValidParticle(w, ci, pi) ==> !Selectable(w, ci, pi)
  }

  /** At most one particle is the nearest: ties go to the earlier one. */
  lemma NearestUnique(w: World, ci: int, pi: int, cj: int, pj: int)
    requires IsNearest(w, ci, pi) && IsNearest(w, cj, pj)
    ensures ci == cj && pi == pj
  {
  }

  predicate PinsParticle(k: Constraint, a: nat)
  {
    k.PinConstraint? && k.a == a
  }

  /** The first index at or after `from` of a pin on particle `a`. */
  function FirstPin(cs: seq<Constraint>, a: nat, from: nat): (r: Option<nat>)
    requires from <= |cs|
    ensures r.Some? ==> from <= r.value < |cs| && PinsParticle(cs[r.value], a)
    ensures r.Some? ==> forall k :: from <= k < r.value ==> !PinsParticle(cs[k], a)
    ensures r.None? ==> forall k :: from <= k < |cs| ==> !PinsParticle(cs[k], a)
    decreases |cs| - from
  {
    if from == |cs| then None
    else if PinsParticle(cs[from], a) then Some(from)
    else FirstPin(cs, a, from + 1)
  }

  /** `nearestEntity()`: `None` exactly when no particle is within the
      selection radius; otherwise the nearest particle, or the first pin on
      it in its own composite when there is one. */
  method NearestEntity(w: World) returns (r: Option<Entity>)
    ensures r.None? <==> NoneSelectable(w)
    ensures r.Some? && r.value.ParticleAt? ==>
              && IsNearest(w, r.value.composite, r.value.particle)
              && forall k :: 0 <= k < |w.composites[r.value.composite].constraints| ==>
                   !PinsParticle(w.composites[r.value.composite].constraints[k], r.value.particle)
    ensures r.Some? && r.value.PinAt? ==>
              && r.value.composite < |w.composites|
              && var cs := w.composites[r.value.composite].constraints;
                 && r.value.constraint < |cs|
                 && cs[r.value.constraint].PinConstraint?
                 && IsNearest(w, r.value.composite, cs[r.value.constraint].a)
                 && forall k :: 0 <= k < r.value.constraint ==> !PinsParticle(cs[k], cs[r.value.constraint].a)
  {
    var found := false;
    var bestC: nat, bestP: nat := 0, 0;
    var d2Nearest := 0.0;
    var ci := 0;
    while ci < |w.composites|
      invariant 0 <= ci <= |w.composites|
      invariant found ==> ValidParticle(w, bestC, bestP) && bestC < ci && Selectable(w, bestC, bestP)
      invariant found ==> d2Nearest == MouseDist2(w, bestC, bestP)
      invariant !found ==> forall cj, pj :: ValidParticle(w, cj, pj) && cj < ci ==> !Selectable(w, cj, pj)
      invariant found ==> forall cj, pj :: ValidParticle(w, cj, pj) && cj < ci && Selectable(w, cj, pj) ==>
                  d2Nearest <= MouseDist2(w, cj, pj)
                  && (Before(cj, pj, bestC, bestP) ==> d2Nearest < MouseDist2(w, cj, pj))
    {
      var ps := w.composites[ci].particles;
      var pi := 0;
      while pi < |ps|
        invariant 0 <= pi <= |ps|
        invariant found ==> ValidParticle(w, bestC, bestP) && Before(bestC, bestP, ci, pi) && Selectable(w, bestC, bestP)
        invariant found ==> d2Nearest == MouseDist2(w, bestC, bestP)
        invariant !found ==> forall cj, pj :: ValidParticle(w, cj, pj) && Before(cj, pj, ci, pi) ==> !Selectable(w, cj, pj)
        invariant found ==> forall cj, pj :: ValidParticle(w, cj, pj) && Before(cj, pj, ci, pi) && Selectable(w, cj, pj) ==>
                    d2Nearest <= MouseDist2(w, cj, pj)
                    && (Before(cj, pj, bestC, bestP) ==> d2Nearest < MouseDist2(w, cj, pj))
      {
        var d2 := Dist2(ps[pi].pos, w.mouse);
        if d2 <= Sq(w.selectionRadius) && (!found || d2 < d2Nearest) {
          found, bestC, bestP, d2Nearest := true, ci, pi, d2;
        }
        pi := pi + 1;
      }
      ci := ci + 1;
    }
    if !found {
      return None;
    }
    var pin := FirstPin(w.composites[bestC].constraints, bestP, 0);
    if pin.Some? {
      return Some(PinAt(bestC, pin.value));
    }
    return Some(ParticleAt(bestC, bestP));
  }
}
