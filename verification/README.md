# verlet-engine, modelled in Dafny

A model of the simulation kernel of verlet-engine, a 2D position-based
physics engine. The kernel has four parts:

- **Vectors.** The `Vec2` algebra.
- **Particles and composites.** A particle holds its current and previous position. A composite is a body made of particles and the constraints between them.
- **Constraints.** Five kinds, each with a `relax` rule that moves particles towards satisfying it: distance, collision, pin, angle and min/max distance.
- **The frame loop.** It runs four passes:
  1. Verlet integration with gravity, friction and ground friction.
  2. Dragging by the mouse.
  3. `step` Gauss-Seidel relaxation sweeps over every composite's constraints.
  4. A clamp into the world's bounds.

The model also covers:

- the mouse selection rule (`nearestEntity`);
- the shape factories `point`, `lineSegments`, `cloth` and `tire`;
- the rotation helpers;
- the colour helpers of the documentation app: `lerp`, `parseColor` and `lerpColor`.

Modules, one per file, in dependency order:

| file | module | models |
|---|---|---|
| optional.dfy | `Optional` | the `Option` type the model uses for absent arguments and poisoned results |
| realmath.dfy | `RealMath` | `Math.sqrt`, `atan2`, `cos` and `sin` as a parameter `MathLib`, `PI`, `Abs`, `Sq`, and small real-arithmetic lemmas |
| vec2.dfy | `Vectors` | `vec2.ts` |
| particle.dfy | `Particles` | the `Particle` of `verlet.ts` |
| constraint.dfy | `Constraints` | `constraint.ts` |
| composite.dfy | `Composites` | the `Composite` of `verlet.ts` and `Composite.pin` |
| world.dfy | `Simulation` | the `VerletJS` world: its defaults, `bounds` and `frame` |
| selection.dfy | `Selection` | `VerletJS.nearestEntity` |
| rotation.dfy | `Rotation` | `rotation.ts` |
| objects.dfy | `Shapes` | `objects.ts` |
| color.dfy | `Colors` | `color.ts` of the documentation app |

Modelling choices:

- **Particles are referenced by index.** The source shares `Particle` objects between a composite and its constraints. In the model a constraint holds indices into its composite's particle sequence, and every operation that moves particles returns the new sequence.
- **Constraints are values.** `relax` returns new particles and never a new constraint, so no relaxation changes a constraint. An angle constraint's rest angle stays the one captured at construction, and a pin keeps its own copy of its position.
- **Mutation becomes a returned value.** The in-place vector methods (`mutableAdd` and the others) are pure functions that return the new value of `this`.
- **Numbers are reals.** JavaScript numbers are modelled as exact reals.
- **`Math` is a parameter.** `MathLib` carries `sqrt`, `atan2`, `cos` and `sin`. The few facts the proofs need are named predicates that a lemma takes as a hypothesis:
  - `SqrtLaws`: `sqrt` is non-negative, and positive on positive numbers.
  - `TrigAtZero`: `cos 0 = 1` and `sin 0 = 0`.
  - `Pythagorean`: `cos² + sin² = 1` at a given angle.
- **Division by zero becomes `None`.** When the source divides by zero in `relax` it writes `NaN` into a position. The model does not continue with `NaN`:
  - `Constraints.Relax` returns `None` exactly when the constraint is degenerate.
  - `Simulation.Frame` returns `None` when any relaxation in the frame would be degenerate.
- **Facts about the code that shape the model:**
  - **Distance splitting.** The distance rule moves both particles by the same correction, in opposite directions. Particles carry no mass.
  - **Zero distance.** A distance constraint is not skipped at zero distance: its rule divides by zero, which the model shows as `None`.
  - **Solver iterations.** The number of relaxation sweeps is the `step` argument of `frame`.
  - **Loop order.** The relaxation loop nests the composite outermost: `step` sweeps of composite 0, then of composite 1, and so on. Because constraints only move their own composite's particles, this gives the same result as one sweep over every composite per iteration.

## Model

"The wiring" of a composite is its particle count, its particles' radii and its constraints, with pin positions allowed to change. Dragging a pin changes its position.

| member | source | states |
|---|---|---|
| Vectors.NewVec2 | packages/verlet-engine/src/lib/vec2.ts:31-34 | a missing coordinate becomes 0; a given one is kept |
| Vectors.Sub | packages/verlet-engine/src/lib/vec2.ts:40-42 | subtracting `v` is undone by adding `v` back; a vector minus itself is the zero vector |
| Vectors.AddLaws | packages/verlet-engine/src/lib/vec2.ts:36-38 | `add` is commutative and associative, and adding the zero vector changes nothing |
| Vectors.Mul | packages/verlet-engine/src/lib/vec2.ts:44-46 | multiplying by a vector with equal components is scaling by that component; multiplying by (1, 1) changes nothing |
| Vectors.ScaleLaws | packages/verlet-engine/src/lib/vec2.ts:52-54 | scaling by 1 changes nothing, scaling by 0 gives the zero vector, and scaling by `c` multiplies the squared length by `c²` |
| Vectors.AddSubRoundTrip | packages/verlet-engine/src/lib/vec2.ts:36-42 | `a.add(b).sub(b)` is `a` |
| Vectors.Div | packages/verlet-engine/src/lib/vec2.ts:48-50 | with no zero component in the divisor, multiplying the quotient back by the divisor gives the dividend |
| Vectors.Length2 | packages/verlet-engine/src/lib/vec2.ts:112-114 | the squared length is the vector's dot product with itself, the sum of the squared components, and never negative |
| Vectors.Dist2 | packages/verlet-engine/src/lib/vec2.ts:120-124 | the squared distance is the squared length of the difference, and zero from a point to itself |
| Vectors.Dist2Symmetric | packages/verlet-engine/src/lib/vec2.ts:120-124 | the squared distance does not depend on the order of the two points |
| Vectors.Length | packages/verlet-engine/src/lib/vec2.ts:108-110 | a length is never negative where `sqrt` is non-negative |
| Vectors.Dist | packages/verlet-engine/src/lib/vec2.ts:116-118 | a distance is never negative where `sqrt` is non-negative |
| Vectors.Normal | packages/verlet-engine/src/lib/vec2.ts:126-129 | for a vector of non-zero length, scaling the normal back by the length gives the vector |
| Vectors.DotLaws | packages/verlet-engine/src/lib/vec2.ts:131-133 | the dot product does not depend on the order of its arguments, and is 0 when either vector is zero |
| Vectors.DotPolarization | packages/verlet-engine/src/lib/vec2.ts:131-133 | twice the dot product of `u` and `v` is the squared length of `u + v` minus the squared lengths of `u` and `v` |
| Vectors.Cross | packages/verlet-engine/src/lib/vec2.ts:136 | the cross term `angle` passes to `atan2` is 0 for a vector with itself |
| Vectors.Angle | packages/verlet-engine/src/lib/vec2.ts:135-137 | the angle from a vector to itself is `atan2(0, \|u\|²)` |
| Vectors.AngleRotate | packages/verlet-engine/src/lib/vec2.ts:135-137 | where `cos² + sin² = 1`, turning both vectors by the same angle about the origin keeps the angle between them |
| Vectors.Angle2 | packages/verlet-engine/src/lib/vec2.ts:139-141 | the angle at a vertex between two rays to the same point is `atan2(0, d²)`, with `d` the distance from the vertex to that point |
| Vectors.Rotate | packages/verlet-engine/src/lib/vec2.ts:143-147 | the pivot is a fixed point of every rotation; a rotation by 0 is the identity |
| Vectors.RotateTranslate | packages/verlet-engine/src/lib/vec2.ts:143-147 | rotating commutes with translating the point and the pivot together |
| Vectors.Angle2Translate | packages/verlet-engine/src/lib/vec2.ts:135-141 | the angle at a vertex between two rays does not change when all three points are translated together |
| Vectors.Equals | packages/verlet-engine/src/lib/vec2.ts:100-102 | `equals` holds exactly when the two vectors are the same value |
| Vectors.EpsilonEquals | packages/verlet-engine/src/lib/vec2.ts:104-106 | equal vectors are epsilon-equal for every non-negative epsilon; nothing is epsilon-equal under a negative epsilon |
| Vectors.EqualsReflexive | packages/verlet-engine/src/lib/vec2.ts:100-106 | every vector equals itself, exactly and within every non-negative epsilon |
| Vectors.MutableSet | packages/verlet-engine/src/lib/vec2.ts:56-60 | after copying both components, `this` is the copied vector |
| Vectors.MutableAdd | packages/verlet-engine/src/lib/vec2.ts:62-66 | updating `x` and then `y` in place gives the value `add` computes, and `sub` undoes it |
| Vectors.MutableSub | packages/verlet-engine/src/lib/vec2.ts:68-72 | the in-place subtraction gives the value `sub` computes, and `add` undoes it |
| Vectors.MutableMul | packages/verlet-engine/src/lib/vec2.ts:74-78 | the in-place product gives the value `mul` computes |
| Vectors.MutableDiv | packages/verlet-engine/src/lib/vec2.ts:80-84 | the in-place quotient gives the value `div` computes, and `mul` undoes it |
| Vectors.MutableScale | packages/verlet-engine/src/lib/vec2.ts:86-90 | the in-place scaling gives the value `scale` computes |
| Vectors.MutableRotate | packages/verlet-engine/src/lib/vec2.ts:92-98 | the offsets are read before `x` is overwritten, so the in-place rotation lands on the point `rotate` computes |
| Particles.NewParticle | packages/verlet-engine/src/lib/verlet.ts:39-42 | a new particle starts at its position with zero velocity and no style radius |
| Particles.EffectiveRadius | packages/verlet-engine/src/lib/constraint.ts:115-116 | a missing or zero style radius counts as 1; any other radius is used as is |
| Particles.SetPos | packages/verlet-engine/src/lib/constraint.ts:168-170 | setting one particle's position moves only that particle, to that position |
| Constraints.NewDistance | packages/verlet-engine/src/lib/constraint.ts:51-56 | the rest distance is the given one, or else the current distance between the two particles, which is never negative |
| Constraints.NewCollision | packages/verlet-engine/src/lib/constraint.ts:102-106 | a collision constraint on exactly the two given particles, with the given stiffness |
| Constraints.NewPin | packages/verlet-engine/src/lib/constraint.ts:159-162 | a pin on exactly the given particle, holding a copy of the given position |
| Constraints.NewAngle | packages/verlet-engine/src/lib/constraint.ts:207-213 | the rest angle is the current angle at `b` between the rays to `a` and `c` |
| Constraints.NewMinMaxDistance | packages/verlet-engine/src/lib/constraint.ts:277-283 | a min/max constraint on exactly the two given particles, keeping both bounds and the stiffness |
| Constraints.Displace | packages/verlet-engine/src/lib/constraint.ts:66-67 | adding a correction to `a` and subtracting it from `b` moves only those two particles. It keeps their midpoint and grows their separation by twice the correction. When `a` and `b` are the same particle nothing moves |
| Constraints.DisplaceByZero | packages/verlet-engine/src/lib/constraint.ts:66-67 | a zero correction moves nothing |
| Constraints.DisplaceAlong | packages/verlet-engine/src/lib/constraint.ts:63-67 | a correction along the separation scales the separation by `1 + 2f` and keeps the midpoint |
| Constraints.CorrectionFactorSign | packages/verlet-engine/src/lib/constraint.ts:65 | the relax factor is zero at the target. With positive stiffness and step coefficient it is negative when the measure exceeds the target and positive when it falls short |
| Constraints.CorrectionFactorAtTarget | packages/verlet-engine/src/lib/constraint.ts:65 | at the target the relax factor is zero |
| Constraints.RelaxDistance | packages/verlet-engine/src/lib/constraint.ts:62-68 | only the two linked particles move. Their midpoint stays put and their separation is scaled by `1 + 2·(d² − m)/m·stiffness·stepCoef`, with `m` the squared separation |
| Constraints.RelaxDistanceAtRest | packages/verlet-engine/src/lib/constraint.ts:62-68 | a distance constraint already at its rest length leaves every particle where it is |
| Constraints.RelaxCollision | packages/verlet-engine/src/lib/constraint.ts:112-125 | only the two particles move, about a fixed midpoint. Nothing moves when they are at least the sum of their radii apart; otherwise the separation is scaled by the collision factor |
| Constraints.CollisionPushesApart | packages/verlet-engine/src/lib/constraint.ts:119-124 | two overlapping particles are pushed strictly apart along their separation, for positive stiffness and step coefficient |
| Constraints.RelaxPin | packages/verlet-engine/src/lib/constraint.ts:168-170 | the pinned particle ends exactly at the pin position and no other particle moves |
| Constraints.RelaxPinIdempotent | packages/verlet-engine/src/lib/constraint.ts:168-170 | relaxing a pin twice is the same as relaxing it once |
| Constraints.WrapAngle | packages/verlet-engine/src/lib/constraint.ts:223-226 | the wrapped error differs from the raw one by 0 or ±2π. It lies in [−π, π] for any raw error within (−3π, 3π), and an error already inside (−π, π) is unchanged |
| Constraints.RelaxAngle | packages/verlet-engine/src/lib/constraint.ts:219-234 | only the three particles of the angle move, and none moves when the scaled angular error is zero |
| Constraints.AngleStep | packages/verlet-engine/src/lib/constraint.ts:220-228 | the scaled angular error is zero at the rest angle, and for a raw error within (−3π, 3π) it is at most π·\|stepCoef·stiffness\| in size |
| Constraints.WrappedStep | packages/verlet-engine/src/lib/constraint.ts:223-228 | wrapping an error and scaling it by `c` gives 0 for a zero error and at most π·\|c\| in size for an error within (−3π, 3π) |
| Constraints.AngleStepAtRest | packages/verlet-engine/src/lib/constraint.ts:220-228 | at the rest angle the scaled angular error is zero |
| Constraints.NewAngleAtRest | packages/verlet-engine/src/lib/constraint.ts:207-234 | relaxing a freshly made angle constraint moves nothing |
| Constraints.RelaxMinMax | packages/verlet-engine/src/lib/constraint.ts:289-305 | only the two particles move, about a fixed midpoint. Nothing moves inside [min, max]; below `min` the correction aims at `min`, above `max` it aims at `max` |
| Constraints.MinMaxDirection | packages/verlet-engine/src/lib/constraint.ts:294-304 | the separation is scaled by a factor `g`. Below `min` it is `g > 1`, pushing the particles apart. Above `max` it is `g < 1`, and with `max > 0` and `stiffness·stepCoef ≤ 1` also `g > −1`, so the separation gets strictly shorter |
| Constraints.PullFactorBound | packages/verlet-engine/src/lib/constraint.ts:296-303 | above a positive target, with `stiffness·stepCoef` in (0, 1], the correction factor lies in (−1, 0) |
| Constraints.Relax | packages/verlet-engine/src/lib/constraint.ts:62-305 | dispatch on the constraint kind. It fails exactly when the kind divides by a zero separation, moves only the constraint's own particles, and a pin never fails |
| Composites.Pin | packages/verlet-engine/src/lib/verlet.ts:59-67 | it succeeds exactly for an index inside the composite. The particles and earlier constraints are kept, and one pin is appended on that particle, at the given position or else at the particle's current one |
| Simulation.NewWorld | packages/verlet-engine/src/lib/verlet.ts:75-95 | a new world has the given size, no composites, nothing dragged, gravity (0, 0.2), friction 0.99, ground friction 0.8, the mouse at the origin and selection radius 20 |
| Simulation.Bounds | packages/verlet-engine/src/lib/verlet.ts:97-106 | the clamped position is inside the world; `lastPos` is untouched; a height already in range is kept; a point already inside stays put |
| Simulation.BoundsIdempotent | packages/verlet-engine/src/lib/verlet.ts:97-106 | clamping twice is clamping once |
| Simulation.GroundFriction | packages/verlet-engine/src/lib/verlet.ts:143-148 | normalising the velocity and scaling it by its length times the ground friction is the same as scaling it by the ground friction |
| Simulation.Integrate | packages/verlet-engine/src/lib/verlet.ts:137-159 | `lastPos` becomes the old position. The new position is the old one plus gravity plus the friction-damped velocity, damped once more by ground friction on the floor |
| Simulation.IntegrateAtRest | packages/verlet-engine/src/lib/verlet.ts:137-159 | a particle at rest moves by exactly gravity, and gravity becomes its velocity |
| Simulation.IntegrateComposite | packages/verlet-engine/src/lib/verlet.ts:137-159 | every particle of a composite is integrated and its constraints are untouched |
| Simulation.IntegrateAll | packages/verlet-engine/src/lib/verlet.ts:137-159 | every composite is integrated and nothing else in the world changes |
| Simulation.IntegrateAllKeepsWiring | packages/verlet-engine/src/lib/verlet.ts:137-159 | integration keeps the wiring and records each particle's old position as `lastPos` |
| Simulation.SameWiringValid | packages/verlet-engine/src/lib/verlet.ts:52-68 | a composite wired like a valid one is valid: moving particles or pin positions never breaks a constraint's reference |
| Simulation.Drag | packages/verlet-engine/src/lib/verlet.ts:162-164 | with nothing dragged the world is unchanged. A dragged particle gets the mouse as its position and keeps everything else; a dragged pin is re-pinned at the mouse on the same particle. Every other particle and every other constraint is unchanged, and the wiring, every `lastPos` and well-formedness are kept |
| Simulation.Touched | packages/verlet-engine/src/lib/verlet.ts:170-172 | a particle index is in the set exactly when some constraint of the list refers to it |
| Simulation.TouchedSameWiring | packages/verlet-engine/src/lib/verlet.ts:170-172 | composites with the same wiring have the same set of constrained particles |
| Simulation.OnlyMovesTrans | packages/verlet-engine/src/lib/verlet.ts:170-172 | two relaxation steps together move only particles that one of them may move |
| Simulation.RelaxSweep | packages/verlet-engine/src/lib/verlet.ts:170-172 | a sweep over a constraint list moves only the particles the list refers to; a sweep over no constraints succeeds and changes nothing |
| Simulation.SweepFailsIff | packages/verlet-engine/src/lib/verlet.ts:170-172 | a sweep fails exactly when some constraint is degenerate on the positions the sweep has reached just before it |
| Simulation.RelaxSweepAppend | packages/verlet-engine/src/lib/verlet.ts:170-172 | sweeping over two lists one after the other is sweeping over their concatenation: Gauss-Seidel order, each constraint seeing the positions left by the one before |
| Simulation.SweepEndsOnPin | packages/verlet-engine/src/lib/verlet.ts:170-172 | a pin as the last constraint of a sweep leaves its particle exactly at the pin position |
| Simulation.RelaxRounds | packages/verlet-engine/src/lib/verlet.ts:169-173 | repeated sweeps move only the composite's constrained particles; zero rounds change nothing |
| Simulation.RelaxComposite | packages/verlet-engine/src/lib/verlet.ts:166-174 | relaxing a composite `step` times keeps its constraints and moves only constrained particles; `step` 0 changes nothing |
| Simulation.RelaxAll | packages/verlet-engine/src/lib/verlet.ts:166-174 | relaxing every composite succeeds exactly when each composite's relaxation does, and gives each composite's result in place |
| Simulation.RelaxAllKeeps | packages/verlet-engine/src/lib/verlet.ts:166-174 | relaxation keeps the wiring and every `lastPos` |
| Simulation.SameWorldWiringTrans | packages/verlet-engine/src/lib/verlet.ts:136-182 | keeping the wiring carries over from pass to pass of a frame |
| Simulation.KeepsLastPosTrans | packages/verlet-engine/src/lib/verlet.ts:162-181 | keeping `lastPos` carries over from pass to pass after integration |
| Simulation.BoundsComposite | packages/verlet-engine/src/lib/verlet.ts:177-181 | every particle of a composite is clamped and its constraints are untouched |
| Simulation.BoundsAll | packages/verlet-engine/src/lib/verlet.ts:177-181 | every composite is clamped, in place |
| Simulation.BoundsAllKeeps | packages/verlet-engine/src/lib/verlet.ts:176-181 | the bounds pass keeps the wiring and every `lastPos`, and leaves every particle inside the world |
| Simulation.RelaxAllAtZero | packages/verlet-engine/src/lib/verlet.ts:166-174 | with `step` 0 the relaxation pass succeeds and changes nothing |
| Simulation.Frame | packages/verlet-engine/src/lib/verlet.ts:136-182 | a completed frame keeps every world setting and the wiring of every composite. Each particle's `lastPos` is its position at the start of the frame, every particle ends inside the world, and a dragged pin is left pinned at the mouse. A frame with `step` 0 always completes |
| Simulation.FrameFreeParticle | packages/verlet-engine/src/lib/verlet.ts:136-182 | a particle that no constraint of its composite refers to ends a completed frame where integration puts it, moved to the mouse if it is the dragged particle, then clamped into the world |
| Selection.NearestUnique | packages/verlet-engine/src/lib/verlet.ts:225-234 | the strict comparison makes the nearest selectable particle unique: ties go to the first in scan order |
| Selection.FirstPin | packages/verlet-engine/src/lib/verlet.ts:237-243 | the first pin on the particle in list order, or `None` when no constraint pins it |
| Selection.NearestEntity | packages/verlet-engine/src/lib/verlet.ts:219-246 | `None` exactly when no particle is within the selection radius. Otherwise the nearest such particle, first in scan order among equals. When its own composite pins it, the result is the first such pin instead |
| Rotation.RotateParticle | packages/verlet-engine/src/lib/rotation.ts:11-14 | both the position and `lastPos` are rotated about the centre and the style is kept. A particle resting on the centre stays put |
| Rotation.RotateVelocity | packages/verlet-engine/src/lib/rotation.ts:11-14 | the velocity of a rotated particle is its old velocity rotated by the same angle |
| Rotation.RotateOffset | packages/verlet-engine/src/lib/vec2.ts:92-98 | the offset between two rotated points is their old offset rotated about the origin |
| Rotation.RotatePreservesDist2 | packages/verlet-engine/src/lib/vec2.ts:92-98 | where `cos² + sin² = 1`, rotation keeps every squared distance |
| Rotation.RotateComposite | packages/verlet-engine/src/lib/rotation.ts:23-27 | every particle is rotated, in order, and the constraints are untouched |
| Rotation.RotateCompositeRigid | packages/verlet-engine/src/lib/rotation.ts:23-27 | rotating a composite keeps the distance between any two of its particles |
| Rotation.RotateCompositeByZero | packages/verlet-engine/src/lib/rotation.ts:23-27 | a rotation by 0 leaves a composite unchanged |
| Shapes.Append | packages/verlet-engine/src/lib/objects.ts:42-43 | a factory appends its composite to the world, changes nothing else, and returns the composite it appended |
| Shapes.Link | packages/verlet-engine/src/lib/objects.ts:52 | a factory's distance constraint rests at the particles' current distance |
| Shapes.Point | packages/verlet-engine/src/lib/objects.ts:39-44 | `point` adds one composite holding one particle at rest at `pos`, with no constraints |
| Shapes.LineComposite | packages/verlet-engine/src/lib/objects.ts:46-57 | one particle per vertex, in order. Link `k` joins particle `k+1` to particle `k` at their distance, and there are no other links |
| Shapes.LineSegments | packages/verlet-engine/src/lib/objects.ts:46-57 | `lineSegments` appends that composite to the world |
| Shapes.ClothPointSpacing | packages/verlet-engine/src/lib/objects.ts:62-68 | neighbouring grid points one column apart differ by `width / segments` in x and share y; one row apart they differ by `height / segments` in y and share x |
| Shapes.ClothPointCentred | packages/verlet-engine/src/lib/objects.ts:62-68 | the grid is centred on `origin`: the points of columns `x` and `s − 1 − x` are mirror images in x about it, and likewise for rows in y |
| Shapes.ClothGrid | packages/verlet-engine/src/lib/objects.ts:65-77 | a cloth of zero segments is empty; otherwise the grid is built cell by cell up to the last one, and its links stay inside it |
| Shapes.ClothUpTo | packages/verlet-engine/src/lib/objects.ts:65-77 | after cell `(y, x)` the grid holds one particle per cell so far and the links made so far |
| Shapes.PrevCell | packages/verlet-engine/src/lib/objects.ts:65-66 | the cell visited before `(y, x)` in row-major order: its particle index is one less, and its links end where `(y, x)` starts its own |
| Shapes.AddCell | packages/verlet-engine/src/lib/objects.ts:67-75 | one cell adds one particle, plus a left link when `x > 0` and an up link when `y > 0` |
| Shapes.AddCellFacts | packages/verlet-engine/src/lib/objects.ts:67-75 | one cell keeps all earlier particles and links. It appends its particle, then the left link to the particle before, then the up link to the particle one row above |
| Shapes.ClothParticleAt | packages/verlet-engine/src/lib/objects.ts:67-69 | after any later cell, the particle of cell `(y', x')` is still at its grid position |
| Shapes.CellLeftLink | packages/verlet-engine/src/lib/objects.ts:71-72 | the first link a cell with `x > 0` adds is its left link, in the slot where the cell's links start |
| Shapes.CellUpLink | packages/verlet-engine/src/lib/objects.ts:74-75 | the link a cell with `y > 0` adds after its left link, if any, is its up link |
| Shapes.ClothLeftLinkAt | packages/verlet-engine/src/lib/objects.ts:71-72 | after any later cell, the left link of cell `(y', x')` is still in its slot |
| Shapes.ClothUpLinkAt | packages/verlet-engine/src/lib/objects.ts:74-75 | after any later cell, the up link of cell `(y', x')` is still in its slot |
| Shapes.ClothLayout | packages/verlet-engine/src/lib/objects.ts:65-77 | in a finished cloth, the particle at index `y·s + x` sits at grid point `(x, y)`. Each cell's left link joins it to its left neighbour and its up link to the cell above, at their distances |
| Shapes.RowBaseIsProduct | packages/verlet-engine/src/lib/objects.ts:72-75 | row `y` starts at particle index `y·s` |
| Shapes.LinkBaseClosedForm | packages/verlet-engine/src/lib/objects.ts:71-75 | the links of row `y > 0` start at index `2sy − s − y`: row 0 makes `s − 1` left links and every later row `2s − 1` links |
| Shapes.ClothCounts | packages/verlet-engine/src/lib/objects.ts:65-77 | a cloth of `s` segments has `s²` particles and `2s(s−1)` links |
| Shapes.PinList | packages/verlet-engine/src/lib/objects.ts:79-83 | the pins are on top-row particles whose column is divisible by `pinMod`, each at its current position, in increasing column order |
| Shapes.PinListComplete | packages/verlet-engine/src/lib/objects.ts:79-83 | every top-row column divisible by `pinMod` gets a pin |
| Shapes.PinCount | packages/verlet-engine/src/lib/objects.ts:79-83 | there are ⌈s / \|pinMod\|⌉ pins, and none for `pinMod` 0 |
| Shapes.PinColumns | packages/verlet-engine/src/lib/objects.ts:79-83 | pinning keeps the particles and grid links and appends the pins after them |
| Shapes.Cloth | packages/verlet-engine/src/lib/objects.ts:59-87 | `cloth` appends the pinned grid to the world |
| Shapes.TireParticles | packages/verlet-engine/src/lib/objects.ts:90-101 | `s` rim particles at angles `i·2π/s`, in order, then the centre |
| Shapes.TirePoint | packages/verlet-engine/src/lib/objects.ts:95-98 | where `cos² + sin² = 1` at its angle, a rim point lies at distance `radius` from the origin; where `cos 0 = 1` and `sin 0 = 0`, rim point 0 is `radius` to the right of the origin |
| Shapes.TireLinksExtend | packages/verlet-engine/src/lib/objects.ts:104-108 | the three links of one more rim particle land in slots `3i` to `3i+2`, keep the earlier slots and stay inside the tire |
| Shapes.TireLinks | packages/verlet-engine/src/lib/objects.ts:104-108 | rim particle `i` contributes three links at slots `3i`, `3i+1` and `3i+2`: a tread link to particle `(i+1) mod s`, a spoke to the centre and a tread link to `(i+5) mod s`. Every link stays inside the tire |
| Shapes.TireComposite | packages/verlet-engine/src/lib/objects.ts:89-112 | a tire has `s + 1` particles with the centre last, and `3s` links inside it |
| Shapes.Tire | packages/verlet-engine/src/lib/objects.ts:89-112 | `tire` appends that composite to the world |
| Shapes.TireSelfLinks | packages/verlet-engine/src/lib/objects.ts:105-107 | the first tread link joins a particle to itself exactly when `s = 1`, the second exactly when `s` is 1 or 5 |
| Shapes.SelfLinkDegenerate | packages/verlet-engine/src/lib/objects.ts:105-107 | a link from a particle to itself is degenerate, so relaxing it fails |
| Colors.Lerp | app/verletjs-doc/src/utils/color.ts:1 | `lerp` is `a` at `p = 0` and `b` at `p = 1` |
| Colors.ScaledRange | app/verletjs-doc/src/utils/color.ts:1 | for `p` in [0, 1], `d·p` lies between 0 and `d` |
| Colors.LerpBetween | app/verletjs-doc/src/utils/color.ts:1 | for `p` in [0, 1] the result lies between `a` and `b` |
| Colors.HexValue | app/verletjs-doc/src/utils/color.ts:4-8 | a character has a hex value exactly when it is a digit or a letter a–f in either case, and that value is below 16 |
| Colors.HexValueIsPosition | app/verletjs-doc/src/utils/color.ts:4-8 | a character's hex value is its position in `0123456789abcdef` or in `0123456789ABCDEF` |
| Colors.HexDigitValues | app/verletjs-doc/src/utils/color.ts:4-8 | every digit of `0123456789abcdef` and of `0123456789ABCDEF` has its position as its value |
| Colors.HexColorGroups | app/verletjs-doc/src/utils/color.ts:4 | a string is an accepted colour exactly when, after dropping one leading `#`, it is three groups of two hex digits |
| Colors.HexByte | app/verletjs-doc/src/utils/color.ts:6-8 | two hex digits make a value below 256 |
| Colors.HexPair | app/verletjs-doc/src/utils/color.ts:6-8 | every byte has a two-digit hex spelling that parses back to it |
| Colors.FormatHex | app/verletjs-doc/src/utils/color.ts:4 | six hex digits, with or without a leading `#`, are accepted colours |
| Colors.ParseColor | app/verletjs-doc/src/utils/color.ts:3-10 | a string the pattern rejects gives black, and every component is within [0, 255] |
| Colors.ParseAccepted | app/verletjs-doc/src/utils/color.ts:4-9 | an accepted string gives the three byte values of its digit pairs |
| Colors.ParseFormatRoundTrip | app/verletjs-doc/src/utils/color.ts:3-10 | formatting three bytes as hex, with or without `#`, and parsing the result gives back the same colour |
| Colors.LerpColor | app/verletjs-doc/src/utils/color.ts:12-18 | it is the first colour at `p = 0` and the second at `p = 1` |
| Colors.LerpColorInRange | app/verletjs-doc/src/utils/color.ts:12-18 | interpolating two parsed colours at `p` in [0, 1] gives components within [0, 255] |

## Left out

- **Drawing and the browser.** All drawing (`draw` of particles, constraints and the world), `initDraggable` with its mouse handlers, the `requestAnimationFrame` shim and `toString` are left out. They are browser I/O. Mouse handling is reduced to the world's `mouse` and `draggedEntity` fields.
- **Floating point.** Rounding, infinities, `-0` and `NaN` are not modelled; numbers are exact reals.
- **`Math` functions.** `sqrt`, `atan2`, `cos` and `sin` are opaque parameters. Only the laws named above are assumed, and only where a lemma states them.
- **Index arguments.** The factories take `segments`, `cloth` takes `pinMod` as an integer, and the frame takes `step` as a natural number. Fractional or negative values, which the source accepts, are not modelled.
- **Particle style.** The style `radius` is optional particle data. The rest of a particle's style is drawing data.
- **Cross-composite constraints.** Constraints that refer to particles of another composite are not modelled: every constraint refers to its own composite.
- Vectors.NewVec2: treats only a missing argument as 0. JavaScript's `x || 0` also maps `NaN` and `-0` to 0, and reals have neither.
- Vectors.Div: requires a divisor with no zero component, because the source yields an infinity or `NaN` there.
- Vectors.Normal: requires a non-zero length, for the same reason.
- Vectors.Length: states non-negativity only under `SqrtLaws`, since `sqrt` is a parameter.
- Constraints.RelaxDistance: requires a non-zero separation. The zero case is the `None` of `Constraints.Relax`; the source writes `NaN` there.
- Constraints.RelaxCollision: requires a non-zero separation whenever the particles overlap, for the same reason.
- Constraints.RelaxMinMax: requires a non-zero separation whenever the distance is out of range, for the same reason.
- Constraints.RelaxAngle: states which particles move and the at-rest case, but not where the three particles land; that depends on `cos` and `sin`.
- Composites.Pin: gives `None` for an index outside the composite. The source throws when `pos` is omitted, and with `pos` given it appends a pin on `undefined`.
- Simulation.Integrate: requires `SqrtLaws`, because the ground-friction branch divides by the velocity's length.
- Simulation.Frame: returns `None` for the whole frame when any relaxation divides by zero. Where a constrained particle ends depends on every relaxation of the frame, so it is stated only for particles no constraint refers to (`Simulation.FrameFreeParticle`) and, through `Simulation.SweepFailsIff`, for when the frame fails.
- Constraints.MinMaxDirection: states that a pull above `max` shortens the separation only when `max > 0` and `stiffness·stepCoef ≤ 1`. With a larger product the code can push the particles past each other to a longer separation than before: stiffness 2, step coefficient 1, `max` 1 and length 10 scale the separation by −2.6.
- Shapes.TireComposite: states only the counts and the centre. The positions and the links are stated by `Shapes.TireParticles` and `Shapes.TireLinks`, which it is built from.
- Shapes.SelfLinkDegenerate: is stated for any self-link. It is not carried through a whole tire: with 1 or 5 segments `Shapes.TireSelfLinks` shows the tire contains such links, so relaxing a tire of 1 or 5 segments fails.
- Colors.ParseColor: the regular expression is modelled directly as "an optional `#` then six hex digits". Other strings give black.
