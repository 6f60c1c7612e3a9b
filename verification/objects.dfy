/** The shape factories of `objects.ts`: `point`, `lineSegments`, `cloth`
    and `tire`. Each builds one composite, appends it to the world and
    returns it. The model states the exact wiring each factory produces:
    which particles exist at which index, and which constraint links which
    particles at which position of the constraint list. */
module Shapes {
  import opened Optional
  import opened RealMath
  import opened Vectors
  import opened Particles
  import opened Constraints
  import opened Composites
  import opened Simulation

  /** `this.composites.push(composite); return composite`. */
  function Append(w: World, c: Composite): (r: (World, Composite))
    ensures r.1 == c && r.0.composites == w.composites + [c]
    ensures r.0.(composites := w.composites) == w
    ensures WellFormed(w) && Valid(c) ==> WellFormed(r.0)
  {
    var w' := w.(composites := w.composites + [c]);
    assert WellFormed(w) && Valid(c) ==> WellFormed(w') by {
      if WellFormed(w) && Valid(c) {
        assert forall ci :: 0 <= ci < |w.composites| ==> w'.composites[ci] == w.composites[ci];
      }
    }
    (w', c)
  }

  /** A distance constraint whose rest length is the current distance of
      its particles, as the factories create them. */
  function Link(ps: seq<Particle>, a: nat, b: nat, stiffness: real, m: MathLib): (k: Constraint)
    requires a < |ps| && b < |ps|
    ensures k == DistanceConstraint(a, b, stiffness, Dist(ps[b].pos, ps[a].pos, m))
  {
    NewDistance(ps, a, b, stiffness, None, m)
  }

  // --------------------------------------------------------------- point

  /** `point(pos)`: one particle at `pos`, at rest, and no constraints. */
  function Point(w: World, pos: Vec2): (r: (World, Composite))
    ensures r.0.composites == w.composites + [r.1] && r.0.(composites := w.composites) == w
    ensures |r.1.particles| == 1 && r.1.constraints == []
    ensures r.1.particles[0].pos == pos && r.1.particles[0].lastPos == pos
    ensures WellFormed(w) ==> WellFormed(r.0)
  {
    Append(w, Composite([NewParticle(pos)], []))
  }

  // -------------------------------------------------------- line segments

  /** The composite `lineSegments` builds: one particle per vertex, in
      vertex order, and a link from each particle to the one before it,
      with the vertices' distance as rest length. */
  function LineComposite(vs: seq<Vec2>, stiffness: real, m: MathLib): (c: Composite)
    ensures |c.particles| == |vs|
    ensures forall i :: 0 <= i < |vs| ==> c.particles[i] == NewParticle(vs[i])
    ensures |c.constraints| == if |vs| == 0 then 0 else |vs| - 1
    ensures forall k :: 0 <= k < |c.constraints| ==>
              c.constraints[k] == DistanceConstraint(k + 1, k, stiffness, Dist(vs[k], vs[k + 1], m))
    ensures Valid(c)
    decreases |vs|
  {
    if |vs| == 0 then Empty
    else
      var i := |vs| - 1;
      var prev := LineComposite(vs[..i], stiffness, m);
      var ps := prev.particles + [NewParticle(vs[i])];
      if i == 0 then
        Composite(ps, prev.constraints)
      else
        Composite(ps, prev.constraints + [Link(ps, i, i - 1, stiffness, m)])
  }

  /** `lineSegments(vertices, stiffness)`. */
  function LineSegments(w: World, vs: seq<Vec2>, stiffness: real, m: MathLib): (r: (World, Composite))
    ensures r.0.composites == w.composites + [r.1] && r.0.(composites := w.composites) == w
    ensures r.1 == LineComposite(vs, stiffness, m)
    ensures WellFormed(w) ==> WellFormed(r.0)
  {
    Append(w, LineComposite(vs, stiffness, m))
  }

  // ---------------------------------------------------------------- cloth

  /** The parameters of `cloth`, except `pinMod`. */
  datatype Sheet = Sheet(origin: Vec2, width: real, height: real, segments: nat, stiffness: real)

  /** The position of grid cell `(y, x)`: the sheet is centred on `origin`
      and each particle sits in the middle of its cell. */
  function ClothPoint(sh: Sheet, y: nat, x: nat): Vec2
    requires 0 < sh.segments
  {
    var xStride := sh.width / (sh.segments as real);
    var yStride := sh.height / (sh.segments as real);
    Vec2(sh.origin.x + (x as real) * xStride - sh.width / 2.0 + xStride / 2.0,
         sh.origin.y + (y as real) * yStride - sh.height / 2.0 + yStride / 2.0)
  }

  /** Neighbouring particles of the grid are one cell width apart along a
      row and one cell height apart down a column. */
  lemma ClothPointSpacing(sh: Sheet, y: nat, x: nat)
    requires 0 < sh.segments
    ensures ClothPoint(sh, y, x + 1).x - ClothPoint(sh, y, x).x == sh.width / (sh.segments as real)
    ensures ClothPoint(sh, y, x + 1).y == ClothPoint(sh, y, x).y
    ensures ClothPoint(sh, y + 1, x).y - ClothPoint(sh, y, x).y == sh.height / (sh.segments as real)
    ensures ClothPoint(sh, y + 1, x).x == ClothPoint(sh, y, x).x
  {
    var xs := sh.width / (sh.segments as real);
    var ys := sh.height / (sh.segments as real);
    assert ((x + 1) as real) * xs == (x as real) * xs + xs;
    assert ((y + 1) as real) * ys == (y as real) * ys + ys;
  }

  /** The grid is centred on `origin`: mirroring a column or a row about the
      middle of the sheet mirrors its position about `origin`. */
  lemma ClothPointCentred(sh: Sheet, y: nat, x: nat)
    requires x < sh.segments && y < sh.segments
    ensures ClothPoint(sh, y, x).x + ClothPoint(sh, y, sh.segments - 1 - x).x == 2.0 * sh.origin.x
    ensures ClothPoint(sh, y, x).y + ClothPoint(sh, sh.segments - 1 - y, x).y == 2.0 * sh.origin.y
  {
    var n := sh.segments as real;
    var xs := sh.width / n;
    var ys := sh.height / n;
    assert n * xs == sh.width;
    assert n * ys == sh.height;
    assert (x as real) * xs + ((sh.segments - 1 - x) as real) * xs == (n - 1.0) * xs;
    assert (y as real) * ys + ((sh.segments - 1 - y) as real) * ys == (n - 1.0) * ys;
  }

  /** The index of the first particle of row `y`. */
  function RowBase(s: nat, y: nat): nat
  {
    if y == 0 then 0 else RowBase(s, y - 1) + s
  }

  /** The particle index of cell `(y, x)`. */
  function Idx(s: nat, y: nat, x: nat): nat
  {
    RowBase(s, y) + x
  }

  /** Cell `(y1, x1)` comes no later than `(y2, x2)` in row-major order. */
  predicate Le(y1: nat, x1: nat, y2: nat, x2: nat)
  {
    y1 < y2 || (y1 == y2 && x1 <= x2)
  }

  /** The number of constraints made before row `y`: a row makes `s - 1`
      left links, and every row but the first also `s` up links. */
  function LinkBase(s: nat, y: nat): nat
    requires 0 < s
  {
    if y == 0 then 0
    else if y == 1 then s - 1
    else LinkBase(s, y - 1) + 2 * s - 1
  }

  /** The position of the first constraint cell `(y, x)` makes. */
  function CellStart(s: nat, y: nat, x: nat): nat
    requires 0 < s
  {
    LinkBase(s, y) + (if x == 0 then 0 else if y == 0 then x - 1 else 2 * x - 1)
  }

  /** Where the up link of cell `(y, x)` goes: after its left link, if any. */
  function UpSlot(s: nat, y: nat, x: nat): nat
    requires 0 < s
  {
    CellStart(s, y, x) + (if x > 0 then 1 else 0)
  }

  /** The number of constraints made up to and including cell `(y, x)`. */
  function CellEnd(s: nat, y: nat, x: nat): nat
    requires 0 < s
  {
    UpSlot(s, y, x) + (if y > 0 then 1 else 0)
  }

  /** The link cell `(y, x)` makes to its left neighbour. */
  function LeftLink(sh: Sheet, y: nat, x: nat, m: MathLib): Constraint
    requires 0 < x < sh.segments
  {
    var s := sh.segments;
    DistanceConstraint(Idx(s, y, x), Idx(s, y, x - 1), sh.stiffness, Dist(ClothPoint(sh, y, x - 1), ClothPoint(sh, y, x), m))
  }

  /** The link cell `(y, x)` makes to its upper neighbour. */
  function UpLink(sh: Sheet, y: nat, x: nat, m: MathLib): Constraint
    requires 0 < y && 0 < sh.segments
  {
    var s := sh.segments;
    DistanceConstraint(Idx(s, y, x), Idx(s, y - 1, x), sh.stiffness, Dist(ClothPoint(sh, y - 1, x), ClothPoint(sh, y, x), m))
  }

  /** The constraints of a cell begin where those of the previous cell in
      row-major order end. */
  lemma CellStartFollows(s: nat, y: nat, x: nat)
    requires 0 < s && x < s
    ensures 0 < x ==> CellEnd(s, y, x - 1) == CellStart(s, y, x)
    ensures x == 0 && 0 < y ==> CellEnd(s, y - 1, s - 1) == CellStart(s, y, x)
  {
  }

  /** The particle and constraints of cell `(y, x)`, appended to those of
      the cells before it. */
  function AddCell(prev: Composite, sh: Sheet, y: nat, x: nat, m: MathLib): (c: Composite)
    requires 0 < sh.segments
    requires |prev.particles| == Idx(sh.segments, y, x)
    requires 0 < y ==> sh.segments <= |prev.particles|
    requires 0 < x ==> 0 < |prev.particles|
    ensures |c.particles| == |prev.particles| + 1
    ensures |c.constraints| == |prev.constraints| + (if x > 0 then 1 else 0) + (if y > 0 then 1 else 0)
    ensures Valid(prev) ==> Valid(c)
  {
    var n := |prev.particles|;
    var ps := prev.particles + [NewParticle(ClothPoint(sh, y, x))];
    var left := if x > 0 then [Link(ps, n, n - 1, sh.stiffness, m)] else [];
    var up := if y > 0 then [Link(ps, n, n - sh.segments, sh.stiffness, m)] else [];
    Composite(ps, prev.constraints + left + up)
  }

  /** What a cell adds: its particle after the earlier ones, then its left
      link and its up link after the earlier constraints. */
  lemma {:induction false} AddCellFacts(prev: Composite, sh: Sheet, y: nat, x: nat, m: MathLib, c: Composite)
    requires 0 < sh.segments
    requires |prev.particles| == Idx(sh.segments, y, x)
    requires 0 < y ==> sh.segments <= |prev.particles|
    requires 0 < x ==> 0 < |prev.particles|
    requires c == AddCell(prev, sh, y, x, m)
    ensures c.particles[..|prev.particles|] == prev.particles
    ensures c.constraints[..|prev.constraints|] == prev.constraints
    ensures c.particles[|prev.particles|] == NewParticle(ClothPoint(sh, y, x))
    ensures 0 < x ==> (c.constraints[|prev.constraints|] ==
              DistanceConstraint(|prev.particles|, |prev.particles| - 1, sh.stiffness,
                                 Dist(prev.particles[|prev.particles| - 1].pos, ClothPoint(sh, y, x), m)))
    ensures 0 < y ==> (c.constraints[|prev.constraints| + (if x > 0 then 1 else 0)] ==
              DistanceConstraint(|prev.particles|, |prev.particles| - sh.segments, sh.stiffness,
                                 Dist(prev.particles[|prev.particles| - sh.segments].pos, ClothPoint(sh, y, x), m)))
  {
    assert c.constraints[..|prev.constraints|] == prev.constraints;
  }

  /** The cell before `(y, x)` in row-major order. */
  function PrevCell(s: nat, y: nat, x: nat): (p: (nat, nat))
    requires 0 < s && x < s && (0 < x || 0 < y)
    ensures p.1 < s && (p.0 < y || (p.0 == y && p.1 < x))
    ensures CellEnd(s, p.0, p.1) == CellStart(s, y, x)
    ensures Idx(s, p.0, p.1) + 1 == Idx(s, y, x)
  {
    CellStartFollows(s, y, x);
    if x > 0 then (y, x - 1) else (y - 1, s - 1)
  }

  /** The composite the nested loops of `cloth` have built once cell
      `(y, x)` is done: the cells up to it in row-major order, each adding
      its particle, then its left link when `x > 0`, then its up link when
      `y > 0`. */
  function ClothUpTo(sh: Sheet, y: nat, x: nat, m: MathLib): (c: Composite)
    requires y < sh.segments && x < sh.segments
    ensures |c.particles| == Idx(sh.segments, y, x) + 1
    ensures |c.constraints| == CellEnd(sh.segments, y, x)
    ensures Valid(c)
    decreases y, x
  {
    if x == 0 && y == 0 then
      AddCell(Empty, sh, 0, 0, m)
    else
      var p := PrevCell(sh.segments, y, x);
      AddCell(ClothUpTo(sh, p.0, p.1, m), sh, y, x, m)
  }

  /** Cell `(y, x)` appends its own particle, made at its position. */
  lemma {:induction false} NewCellParticle(sh: Sheet, y: nat, x: nat, m: MathLib)
    requires y < sh.segments && x < sh.segments
    ensures Idx(sh.segments, y, x) < |ClothUpTo(sh, y, x, m).particles|
    ensures ClothUpTo(sh, y, x, m).particles[Idx(sh.segments, y, x)] == NewParticle(ClothPoint(sh, y, x))
  {
    var c := ClothUpTo(sh, y, x, m);
    if x == 0 && y == 0 {
      AddCellFacts(Empty, sh, 0, 0, m, c);
    } else {
      var p := PrevCell(sh.segments, y, x);
      AddCellFacts(ClothUpTo(sh, p.0, p.1, m), sh, y, x, m, c);
    }
  }

  /** Cell `(y, x)` keeps the particles of the cells before it. */
  lemma {:induction false} CellKeepsParticle(sh: Sheet, y: nat, x: nat, m: MathLib, i: nat)
    requires y < sh.segments && x < sh.segments && (0 < x || 0 < y)
    requires var p := PrevCell(sh.segments, y, x); i < |ClothUpTo(sh, p.0, p.1, m).particles|
    ensures var p := PrevCell(sh.segments, y, x);
            i < |ClothUpTo(sh, y, x, m).particles|
            && ClothUpTo(sh, y, x, m).particles[i] == ClothUpTo(sh, p.0, p.1, m).particles[i]
  {
    var p := PrevCell(sh.segments, y, x);
    var prev := ClothUpTo(sh, p.0, p.1, m);
    var c := ClothUpTo(sh, y, x, m);
    AddCellFacts(prev, sh, y, x, m, c);
    assert c.particles[i] == c.particles[..|prev.particles|][i];
  }

  /** Cell `(y, x)` keeps the constraints of the cells before it. */
  lemma {:induction false} CellKeepsConstraint(sh: Sheet, y: nat, x: nat, m: MathLib, j: nat)
    requires y < sh.segments && x < sh.segments && (0 < x || 0 < y)
    requires var p := PrevCell(sh.segments, y, x); j < |ClothUpTo(sh, p.0, p.1, m).constraints|
    ensures var p := PrevCell(sh.segments, y, x);
            j < |ClothUpTo(sh, y, x, m).constraints|
            && ClothUpTo(sh, y, x, m).constraints[j] == ClothUpTo(sh, p.0, p.1, m).constraints[j]
  {
    var p := PrevCell(sh.segments, y, x);
    var prev := ClothUpTo(sh, p.0, p.1, m);
    var c := ClothUpTo(sh, y, x, m);
    AddCellFacts(prev, sh, y, x, m, c);
    assert c.constraints[j] == c.constraints[..|prev.constraints|][j];
  }

  /** Once cell `(y, x)` is done, every cell up to it holds its particle,
      made at the cell's position, at its index. */
  lemma {:induction false} ClothParticleAt(sh: Sheet, y: nat, x: nat, m: MathLib, y': nat, x': nat)
    requires y < sh.segments && x < sh.segments && x' < sh.segments && Le(y', x', y, x)
    ensures Idx(sh.segments, y', x') < |ClothUpTo(sh, y, x, m).particles|
    ensures ClothUpTo(sh, y, x, m).particles[Idx(sh.segments, y', x')] == NewParticle(ClothPoint(sh, y', x'))
    decreases y, x
  {
    if y' == y && x' == x {
      NewCellParticle(sh, y, x, m);
    } else {
      var p := PrevCell(sh.segments, y, x);
      ClothParticleAt(sh, p.0, p.1, m, y', x');
      CellKeepsParticle(sh, y, x, m, Idx(sh.segments, y', x'));
    }
  }

  /** Cell `(y, x)`, outside the first column, appends its left link. */
  lemma {:induction false} NewLeftLink(sh: Sheet, y: nat, x: nat, m: MathLib)
    requires y < sh.segments && 0 < x < sh.segments
    ensures CellStart(sh.segments, y, x) < |ClothUpTo(sh, y, x, m).constraints|
    ensures ClothUpTo(sh, y, x, m).constraints[CellStart(sh.segments, y, x)] == LeftLink(sh, y, x, m)
  {
    var p := PrevCell(sh.segments, y, x);
    var prev := ClothUpTo(sh, p.0, p.1, m);
    var c := ClothUpTo(sh, y, x, m);
    assert c == AddCell(prev, sh, y, x, m);
    ClothParticleAt(sh, p.0, p.1, m, y, x - 1);
    CellLeftLink(prev, sh, y, x, m, c);
  }

  /** The left link a cell appends, stated for any earlier part of the
      right size whose last particle is the left neighbour. */
  lemma CellLeftLink(prev: Composite, sh: Sheet, y: nat, x: nat, m: MathLib, c: Composite)
    requires 0 < x < sh.segments
    requires |prev.particles| == Idx(sh.segments, y, x) && (0 < y ==> sh.segments <= |prev.particles|)
    requires |prev.constraints| == CellStart(sh.segments, y, x)
    requires prev.particles[Idx(sh.segments, y, x - 1)] == NewParticle(ClothPoint(sh, y, x - 1))
    requires c == AddCell(prev, sh, y, x, m)
    ensures CellStart(sh.segments, y, x) < |c.constraints|
    ensures c.constraints[CellStart(sh.segments, y, x)] == LeftLink(sh, y, x, m)
  {
    AddCellFacts(prev, sh, y, x, m, c);
  }

  /** Once cell `(y, x)` is done, every cell up to it outside the first
      column has its left link at its position. */
  lemma {:induction false} ClothLeftLinkAt(sh: Sheet, y: nat, x: nat, m: MathLib, y': nat, x': nat)
    requires y < sh.segments && x < sh.segments && 0 < x' < sh.segments && Le(y', x', y, x)
    ensures CellStart(sh.segments, y', x') < |ClothUpTo(sh, y, x, m).constraints|
    ensures ClothUpTo(sh, y, x, m).constraints[CellStart(sh.segments, y', x')] == LeftLink(sh, y', x', m)
    decreases y, x
  {
    if y' == y && x' == x {
      NewLeftLink(sh, y, x, m);
    } else {
      var p := PrevCell(sh.segments, y, x);
      ClothLeftLinkAt(sh, p.0, p.1, m, y', x');
      CellKeepsConstraint(sh, y, x, m, CellStart(sh.segments, y', x'));
    }
  }

  /** Cell `(y, x)`, outside the first row, appends its up link. */
  lemma {:induction false} NewUpLink(sh: Sheet, y: nat, x: nat, m: MathLib)
    requires 0 < y < sh.segments && x < sh.segments
    ensures UpSlot(sh.segments, y, x) < |ClothUpTo(sh, y, x, m).constraints|
    ensures ClothUpTo(sh, y, x, m).constraints[UpSlot(sh.segments, y, x)] == UpLink(sh, y, x, m)
  {
    var p := PrevCell(sh.segments, y, x);
    var prev := ClothUpTo(sh, p.0, p.1, m);
    var c := ClothUpTo(sh, y, x, m);
    assert c == AddCell(prev, sh, y, x, m);
    ClothParticleAt(sh, p.0, p.1, m, y - 1, x);
    CellUpLink(prev, sh, y, x, m, c);
  }

  /** The up link a cell appends, stated for any earlier part of the right
      size that holds the upper neighbour `s` places from its end. */
  lemma CellUpLink(prev: Composite, sh: Sheet, y: nat, x: nat, m: MathLib, c: Composite)
    requires 0 < y && 0 < sh.segments && x < sh.segments
    requires |prev.particles| == Idx(sh.segments, y, x)
    requires |prev.constraints| == CellStart(sh.segments, y, x)
    requires prev.particles[Idx(sh.segments, y - 1, x)] == NewParticle(ClothPoint(sh, y - 1, x))
    requires c == AddCell(prev, sh, y, x, m)
    ensures UpSlot(sh.segments, y, x) < |c.constraints|
    ensures c.constraints[UpSlot(sh.segments, y, x)] == UpLink(sh, y, x, m)
  {
    assert Idx(sh.segments, y, x) == Idx(sh.segments, y - 1, x) + sh.segments;
    AddCellFacts(prev, sh, y, x, m, c);
  }

  /** Once cell `(y, x)` is done, every cell up to it outside the first
      row has its up link at its position. */
  lemma {:induction false} ClothUpLinkAt(sh: Sheet, y: nat, x: nat, m: MathLib, y': nat, x': nat)
    requires y < sh.segments && x < sh.segments && 0 < y' && x' < sh.segments && Le(y', x', y, x)
    ensures UpSlot(sh.segments, y', x') < |ClothUpTo(sh, y, x, m).constraints|
    ensures ClothUpTo(sh, y, x, m).constraints[UpSlot(sh.segments, y', x')] == UpLink(sh, y', x', m)
    decreases y, x
  {
    if y' == y && x' == x {
      NewUpLink(sh, y, x, m);
    } else {
      var p := PrevCell(sh.segments, y, x);
      ClothUpLinkAt(sh, p.0, p.1, m, y', x');
      CellKeepsConstraint(sh, y, x, m, UpSlot(sh.segments, y', x'));
    }
  }

  /** The grid of `s × s` particles with all its links, before pinning. */
  function ClothGrid(sh: Sheet, m: MathLib): (c: Composite)
    ensures sh.segments == 0 ==> c == Empty
    ensures 0 < sh.segments ==> c == ClothUpTo(sh, sh.segments - 1, sh.segments - 1, m)
    ensures Valid(c)
  {
    if sh.segments == 0 then Empty
    else ClothUpTo(sh, sh.segments - 1, sh.segments - 1, m)
  }

  /** Column `x` of the first row is pinned: `x % pinMod === 0`. For a
      non-negative `x` the truncating remainder of the source and the
      Euclidean one agree; `pinMod = 0` gives NaN, which pins nothing. */
  predicate PinSelected(x: nat, pinMod: int)
  {
    pinMod != 0 && x % pinMod == 0
  }

  /** The pins on the selected columns among the first `n`, each at its
      particle's position, in increasing column order. */
  function PinList(ps: seq<Particle>, pinMod: int, n: nat): (pins: seq<Constraint>)
    requires n <= |ps|
    ensures forall j :: 0 <= j < |pins| ==> PinOf(ps, pinMod, n, pins[j])
    ensures forall j1, j2 :: 0 <= j1 < j2 < |pins| ==> pins[j1].a < pins[j2].a
    decreases n
  {
    if n == 0 then []
    else
      var prev := PinList(ps, pinMod, n - 1);
      if PinSelected(n - 1, pinMod) then prev + [NewPin(n - 1, ps[n - 1].pos)] else prev
  }

  /** `k` is a pin on a selected column below `n`, at its particle. */
  predicate PinOf(ps: seq<Particle>, pinMod: int, n: nat, k: Constraint)
  {
    k.PinConstraint? && k.a < n && k.a < |ps| && PinSelected(k.a, pinMod) && k.pos == ps[k.a].pos
  }

  /** No selected column is missed. */
  lemma {:induction false} PinListComplete(ps: seq<Particle>, pinMod: int, n: nat, x: nat)
    requires n <= |ps| && x < n && PinSelected(x, pinMod)
    ensures exists j :: 0 <= j < |PinList(ps, pinMod, n)| && PinList(ps, pinMod, n)[j].a == x
    decreases n
  {
    var pins := PinList(ps, pinMod, n);
    if x == n - 1 {
      assert pins[|pins| - 1].a == x;
    } else {
      PinListComplete(ps, pinMod, n - 1, x);
      var prev := PinList(ps, pinMod, n - 1);
      var j :| 0 <= j < |prev| && prev[j].a == x;
      assert pins[j] == prev[j];
    }
  }

  /** Division with remainder has one answer. */
  lemma DivUnique(a: int, d: int, q: int, r: int)
    requires 0 < d && 0 <= r < d && a == d * q + r
    ensures a / d == q && a % d == r
  {
    var q0, r0 := a / d, a % d;
    assert a == d * q0 + r0;
    if q0 < q {
      MulAtLeast(d, q - q0);
      assert false;
    } else if q < q0 {
      MulAtLeast(d, q0 - q);
      assert false;
    }
  }

  lemma MulAtLeast(d: int, k: int)
    requires 0 < d && 1 <= k
    ensures d <= d * k
  {
  }

  /** Going from `k` to `k + 1` adds one to `⌈k / d⌉` exactly when `d`
      divides `k`. */
  lemma CeilStep(k: nat, d: nat)
    requires 0 < d
    ensures (k + d) / d == (k + d - 1) / d + (if k % d == 0 then 1 else 0)
  {
    var q, r := k / d, k % d;
    DivUnique(k + d, d, q + 1, r);
    if r == 0 {
      DivUnique(k + d - 1, d, q, d - 1);
    } else {
      DivUnique(k + d - 1, d, q + 1, r - 1);
    }
  }

  /** Among the first `n` columns, `⌈n / |pinMod|⌉` are pinned, and none
      when `pinMod` is zero. */
  lemma {:induction false} PinCount(ps: seq<Particle>, pinMod: int, n: nat)
    requires n <= |ps|
    ensures pinMod == 0 ==> |PinList(ps, pinMod, n)| == 0
    ensures pinMod != 0 ==> var d := if pinMod < 0 then -pinMod else pinMod;
                            |PinList(ps, pinMod, n)| == (n + d - 1) / d
    decreases n
  {
    if n > 0 {
      PinCount(ps, pinMod, n - 1);
      if pinMod != 0 {
        var d := if pinMod < 0 then -pinMod else pinMod;
        assert (n - 1) % pinMod == (n - 1) % d;
        CeilStep(n - 1, d);
      }
    } else if pinMod != 0 {
      var d := if pinMod < 0 then -pinMod else pinMod;
      DivUnique(d - 1, d, 0, d - 1);
    }
  }

  /** The pinning loop of `cloth` over the first `n` columns: one
      `pin(x)` per selected column, in increasing order, each at the
      particle's current position and after every constraint already
      present. */
  function PinColumns(c: Composite, pinMod: int, n: nat): (r: Composite)
    requires n <= |c.particles| && Valid(c)
    ensures r.particles == c.particles
    ensures r.constraints == c.constraints + PinList(c.particles, pinMod, n)
    ensures Valid(r)
    decreases n
  {
    if n == 0 then c
    else
      var prev := PinColumns(c, pinMod, n - 1);
      if PinSelected(n - 1, pinMod) then
        var r := Pin(prev, n - 1, None).value;
        assert r.constraints == prev.constraints + [r.constraints[|prev.constraints|]] by {
          assert r.constraints[..|prev.constraints|] == prev.constraints;
        }
        r
      else
        prev
  }

  /** `cloth(origin, width, height, segments, pinMod, stiffness)`: the grid
      followed by the pins on the selected columns of the first row. */
  function Cloth(w: World, sh: Sheet, pinMod: int, m: MathLib): (r: (World, Composite))
    ensures r.0.composites == w.composites + [r.1] && r.0.(composites := w.composites) == w
    ensures r.1 == PinColumns(ClothGrid(sh, m), pinMod, sh.segments)
    ensures WellFormed(w) ==> WellFormed(r.0)
  {
    var grid := ClothGrid(sh, m);
    assert sh.segments <= |grid.particles| by {
      if 0 < sh.segments {
        assert Idx(sh.segments, sh.segments - 1, sh.segments - 1) == RowBase(sh.segments, sh.segments - 1) + sh.segments - 1;
      }
    }
    Append(w, PinColumns(grid, pinMod, sh.segments))
  }

  /** Row `y` starts at particle `y · s`: the grid is row-major. */
  lemma {:induction false} RowBaseIsProduct(s: nat, y: nat)
    ensures RowBase(s, y) == y * s
  {
    if y > 0 {
      RowBaseIsProduct(s, y - 1);
      assert (y - 1) * s + s == y * s;
    }
  }

  lemma {:induction false} LinkBaseClosedForm(s: nat, y: nat)
    requires 0 < s
    ensures 0 < y ==> LinkBase(s, y) == 2 * s * y - s - y
  {
    if y > 1 {
      LinkBaseClosedForm(s, y - 1);
      assert 2 * s * (y - 1) == 2 * s * y - 2 * s;
    }
  }

  /** A cloth of `s` segments has `s²` particles and `2·s·(s - 1)` links
      before its pins. */
  lemma ClothCounts(sh: Sheet, m: MathLib)
    requires 0 < sh.segments
    ensures |ClothGrid(sh, m).particles| == sh.segments * sh.segments
    ensures |ClothGrid(sh, m).constraints| == 2 * sh.segments * (sh.segments - 1)
  {
    var s := sh.segments;
    RowBaseIsProduct(s, s - 1);
    assert (s - 1) * s + s == s * s;
    LinkBaseClosedForm(s, s);
    assert CellEnd(s, s - 1, s - 1) == LinkBase(s, s);
    assert 2 * s * (s - 1) == 2 * s * s - 2 * s;
  }

  /** The layout of the finished grid, cell by cell: cell `(y, x)` holds
      particle `y·s + x`, made at the cell's position; outside the first
      column it links to its left neighbour, and outside the first row to
      its upper neighbour, at the positions `CellStart` and `UpSlot`
      give. */
  lemma {:induction false} ClothLayout(sh: Sheet, m: MathLib, y: nat, x: nat)
    requires y < sh.segments && x < sh.segments
    ensures Idx(sh.segments, y, x) < |ClothGrid(sh, m).particles|
    ensures ClothGrid(sh, m).particles[Idx(sh.segments, y, x)] == NewParticle(ClothPoint(sh, y, x))
    ensures 0 < x ==> CellStart(sh.segments, y, x) < |ClothGrid(sh, m).constraints|
                      && ClothGrid(sh, m).constraints[CellStart(sh.segments, y, x)] == LeftLink(sh, y, x, m)
    ensures 0 < y ==> UpSlot(sh.segments, y, x) < |ClothGrid(sh, m).constraints|
                      && ClothGrid(sh, m).constraints[UpSlot(sh.segments, y, x)] == UpLink(sh, y, x, m)
  {
    // A fresh name for `s - 1` keeps the solver from unfolding the grid at
    // arithmetic arguments.
    var last: nat :| last + 1 == sh.segments;
    assert ClothGrid(sh, m) == ClothUpTo(sh, last, last, m);
    ClothParticleAt(sh, last, last, m, y, x);
    if 0 < x {
      ClothLeftLinkAt(sh, last, last, m, y, x);
    }
    if 0 < y {
      ClothUpLinkAt(sh, last, last, m, y, x);
    }
  }

  // ----------------------------------------------------------------- tire

  /** Rim particle `i` of a tire of `s` segments: at angle `i · 2π / s`, on
      the circle of the given radius about `origin` when `cos² + sin² = 1`
      there, and straight right of `origin` for `i = 0` when `cos 0 = 1`
      and `sin 0 = 0`. */
  function TirePoint(origin: Vec2, radius: real, s: nat, i: nat, m: MathLib): (r: Vec2)
    requires 0 < s
    ensures Pythagorean(m, (i as real) * (2.0 * PI / (s as real))) ==> Dist2(origin, r) == Sq(radius)
    ensures TrigAtZero(m) && i == 0 ==> r == Vec2(origin.x + radius, origin.y)
  {
    var theta := (i as real) * (2.0 * PI / (s as real));
    var c, sn := m.cos(theta), m.sin(theta);
    var r := Vec2(origin.x + c * radius, origin.y + sn * radius);
    assert Sub(r, origin) == Vec2(c * radius, sn * radius);
    CircleNorm(radius, c, sn);
    r
  }

  /** The particles of a tire: the rim in order, then the centre. */
  function TireParticles(origin: Vec2, radius: real, s: nat, m: MathLib): (ps: seq<Particle>)
    ensures |ps| == s + 1
    ensures forall i :: 0 <= i < s ==> ps[i] == NewParticle(TirePoint(origin, radius, s, i, m))
    ensures ps[s] == NewParticle(origin)
  {
    seq(s, i requires 0 <= i < s => NewParticle(TirePoint(origin, radius, s, i, m))) + [NewParticle(origin)]
  }

  /** The position in the constraint list of the `j`-th link of rim
      particle `i`. */
  function Slot(i: nat, j: nat): nat
  {
    3 * i + j
  }

  /** The three links of rim particle `i`: a tread link to the next rim
      particle, a spoke to the centre, and a tread link to the rim particle
      five places on, in that order. */
  function RimLinks(ps: seq<Particle>, s: nat, i: nat, spoke: real, tread: real, m: MathLib): seq<Constraint>
    requires i < s && |ps| == s + 1
  {
    [Link(ps, i, (i + 1) % s, tread, m), Link(ps, i, s, spoke, m), Link(ps, i, (i + 5) % s, tread, m)]
  }

  /** The links of the first `n` rim particles, each particle's three in
      turn. */
  function TireLinks(ps: seq<Particle>, s: nat, n: nat, spoke: real, tread: real, m: MathLib): (cs: seq<Constraint>)
    requires n <= s && |ps| == s + 1
    ensures |cs| == 3 * n
    ensures forall i :: 0 <= i < n ==>
              && cs[Slot(i, 0)] == Link(ps, i, (i + 1) % s, tread, m)
              && cs[Slot(i, 1)] == Link(ps, i, s, spoke, m)
              && cs[Slot(i, 2)] == Link(ps, i, (i + 5) % s, tread, m)
    ensures AllInRange(cs, |ps|)
    decreases n
  {
    if n == 0 then []
    else
      var i := n - 1;
      var prev := TireLinks(ps, s, i, spoke, tread, m);
      TireLinksExtend(prev, ps, s, i, spoke, tread, m);
      prev + RimLinks(ps, s, i, spoke, tread, m)
  }

  /** Appending the links of rim particle `i` keeps every earlier link in
      its slot and puts the new three in theirs. */
  lemma TireLinksExtend(prev: seq<Constraint>, ps: seq<Particle>, s: nat, i: nat, spoke: real, tread: real, m: MathLib)
    requires i < s && |ps| == s + 1 && |prev| == 3 * i
    requires forall k :: 0 <= k < i ==>
               && prev[Slot(k, 0)] == Link(ps, k, (k + 1) % s, tread, m)
               && prev[Slot(k, 1)] == Link(ps, k, s, spoke, m)
               && prev[Slot(k, 2)] == Link(ps, k, (k + 5) % s, tread, m)
    requires AllInRange(prev, |ps|)
    ensures var cs := prev + RimLinks(ps, s, i, spoke, tread, m);
            forall k :: 0 <= k < i + 1 ==>
              && cs[Slot(k, 0)] == Link(ps, k, (k + 1) % s, tread, m)
              && cs[Slot(k, 1)] == Link(ps, k, s, spoke, m)
              && cs[Slot(k, 2)] == Link(ps, k, (k + 5) % s, tread, m)
    ensures AllInRange(prev + RimLinks(ps, s, i, spoke, tread, m), |ps|)
  {
    var rim := RimLinks(ps, s, i, spoke, tread, m);
    var cs := prev + rim;
    forall k | 0 <= k < i + 1
      ensures && cs[Slot(k, 0)] == Link(ps, k, (k + 1) % s, tread, m)
              && cs[Slot(k, 1)] == Link(ps, k, s, spoke, m)
              && cs[Slot(k, 2)] == Link(ps, k, (k + 5) % s, tread, m)
    {
      if k < i {
        assert cs[Slot(k, 0)] == prev[Slot(k, 0)];
        assert cs[Slot(k, 1)] == prev[Slot(k, 1)];
        assert cs[Slot(k, 2)] == prev[Slot(k, 2)];
      } else {
        assert cs[Slot(k, 0)] == rim[0] && cs[Slot(k, 1)] == rim[1] && cs[Slot(k, 2)] == rim[2];
      }
    }
    forall q | 0 <= q < |cs|
      ensures InRange(cs[q], |ps|)
    {
      if q < |prev| {
        assert cs[q] == prev[q];
      }
    }
  }

  /** The composite `tire` builds. */
  function TireComposite(origin: Vec2, radius: real, s: nat, spoke: real, tread: real, m: MathLib): (c: Composite)
    ensures |c.particles| == s + 1 && c.particles[s].pos == origin
    ensures |c.constraints| == 3 * s
    ensures Valid(c)
  {
    var ps := TireParticles(origin, radius, s, m);
    Composite(ps, TireLinks(ps, s, s, spoke, tread, m))
  }

  /** `tire(origin, radius, segments, spokeStiffness, treadStiffness)`. */
  function Tire(w: World, origin: Vec2, radius: real, s: nat, spoke: real, tread: real, m: MathLib): (r: (World, Composite))
    ensures r.0.composites == w.composites + [r.1] && r.0.(composites := w.composites) == w
    ensures r.1 == TireComposite(origin, radius, s, spoke, tread, m)
    ensures WellFormed(w) ==> WellFormed(r.0)
  {
    Append(w, TireComposite(origin, radius, s, spoke, tread, m))
  }

  /** A tire link never joins a particle to itself, except with one
      segment (both tread links) or five (the second tread link). */
  lemma TireSelfLinks(s: nat, i: nat)
    requires i < s
    ensures (i + 1) % s == i <==> s == 1
    ensures (i + 5) % s == i <==> s == 1 || s == 5
  {
  }

  /** A link from a particle to itself is degenerate: `relax` divides by
      its zero length. With one or five segments a tire has such links. */
  lemma SelfLinkDegenerate(ps: seq<Particle>, a: nat, stiffness: real, m: MathLib)
    requires a < |ps|
    ensures Degenerate(ps, Link(ps, a, a, stiffness, m), m)
  {
    assert Separation(ps, a, a) == Zero;
  }
}
