/**
  Rays and the discrete step rule of 3D-DDA (Amanatides-Woo) grid traversal,
  over real numbers and integer voxels, marched through one chunk.
 */
module RayTraversal {
  import opened Primitives
  import opened ChunkStorage

  datatype Vec3 = Vec3(x: real, y: real, z: real)

  /** An integer grid cell, also used for the per-axis step signs. */
  datatype Voxel = Voxel(x: int, y: int, z: int)

  /** An axis index: 0 is x, 1 is y, 2 is z. */
  type Axis = i: nat | i < 3

  function Component(v: Vec3, a: Axis): real {
    if a == 0 then v.x else if a == 1 then v.y else v.z
  }

  function Coord(v: Voxel, a: Axis): int {
    if a == 0 then v.x else if a == 1 then v.y else v.z
  }

  /** A ray: its origin, its unit direction and the range it is marched over. */
  datatype Ray = Ray(origin: Vec3, direction: Vec3, distance: real)

  /** What a march reports when it meets a solid voxel. */
  datatype RaycastHit = RaycastHit(position: Vec3, distance: real, voxel: u8)

  /** The point at parameter t along the ray. */
  function At(ray: Ray, t: real): (p: Vec3)
    ensures forall a: Axis :: Component(p, a) == Component(ray.origin, a) + Component(ray.direction, a) * t
  {
    Vec3(ray.origin.x + ray.direction.x * t,
         ray.origin.y + ray.direction.y * t,
         ray.origin.z + ray.direction.z * t)
  }

  /** The ray starts at its origin and moves by `direction` per unit of t. */
  lemma AtMovesAlongDirection(ray: Ray, t: real, s: real)
    ensures At(ray, 0.0) == ray.origin
    ensures forall a: Axis :: Component(At(ray, t + s), a) == Component(At(ray, t), a) + Component(ray.direction, a) * s
  {
    assert forall a: Axis :: Component(ray.direction, a) * (t + s) == Component(ray.direction, a) * t + Component(ray.direction, a) * s;
  }

  /**
    Axis a holds the smallest entry of tMax, and every later axis holds a
    strictly larger one: a is the last axis attaining the minimum.
   */
  predicate LastMinimum(tMax: Vec3, a: Axis) {
    && (forall b: Axis :: Component(tMax, a) <= Component(tMax, b))
    && (forall b: Axis | a < b :: Component(tMax, a) < Component(tMax, b))
  }

  /**
    The axis whose boundary the ray crosses next, with its crossing parameter.
    The strict comparisons give a tie to the later axis.
   */
  function FindNextAxis(tMax: Vec3): (r: (Axis, real))
    ensures r.1 == Component(tMax, r.0)
    ensures LastMinimum(tMax, r.0)
  {
    var axis := if tMax.x < tMax.y && tMax.x < tMax.z then 0 else if tMax.y < tMax.z then 1 else 2;
    (axis, Component(tMax, axis))
  }

  /** The selected axis is exactly the last one attaining the minimum. */
  lemma NextAxisIsLastMinimum(tMax: Vec3, a: Axis)
    ensures LastMinimum(tMax, a) <==> a == FindNextAxis(tMax).0
  {
  }

  /** The tie-breaks the strict comparisons produce. */
  lemma NextAxisTieBreaks(tMax: Vec3)
    ensures FindNextAxis(tMax).0 == 0 <==> tMax.x < tMax.y && tMax.x < tMax.z
    ensures tMax.y == tMax.z && tMax.z <= tMax.x ==> FindNextAxis(tMax).0 == 2
    ensures tMax.x == tMax.y && tMax.y < tMax.z ==> FindNextAxis(tMax).0 == 1
    ensures tMax.x == tMax.y == tMax.z ==> FindNextAxis(tMax).0 == 2
  {
  }

  /** Moves one voxel along `axis`, in the direction `step` gives for that axis. */
  function StepVoxel(pos: Voxel, axis: Axis, step: Voxel): (r: Voxel)
    ensures forall a: Axis :: Coord(r, a) == Coord(pos, a) + (if a == axis then Coord(step, a) else 0)
  {
    match axis
    case 0 => pos.(x := pos.x + step.x)
    case 1 => pos.(y := pos.y + step.y)
    case 2 => pos.(z := pos.z + step.z)
  }

  /** 1 for the selected axis and 0 for the others. */
  function Indicator(b: bool): real {
    if b then 1.0 else 0.0
  }

  /** Adds `tDelta` to the next-crossing parameter of the selected axis only. */
  function AdvanceTMax(tMax: Vec3, tDelta: Vec3, axis: Axis): (r: Vec3)
    ensures forall a: Axis :: Component(r, a) == Component(tMax, a) + (if a == axis then Component(tDelta, a) else 0.0)
  {
    Vec3(tMax.x + tDelta.x * Indicator(axis == 0),
         tMax.y + tDelta.y * Indicator(axis == 1),
         tMax.z + tDelta.z * Indicator(axis == 2))
  }

  /** The sign of a float as a step: +1 for zero and positive values, -1 for negative ones. */
  function Signum(d: real): (s: int)
    ensures s == 1 || s == -1
    ensures s < 0 <==> d < 0.0
  {
    if d < 0.0 then -1 else 1
  }

  /** The loop state of a march: the parameter reached, the current voxel, the next crossings. */
  datatype Traversal = Traversal(t: real, voxel: Voxel, tMax: Vec3)

  /**
    r is s after crossing the boundary of axis a: a is the last axis whose
    crossing is nearest, t moves to that crossing, the voxel steps along a and
    only a's next crossing moves on.
   */
  predicate CrossesAlong(s: Traversal, r: Traversal, step: Voxel, tDelta: Vec3, a: Axis) {
    && LastMinimum(s.tMax, a)
    && r.t == Component(s.tMax, a)
    && r.voxel == StepVoxel(s.voxel, a, step)
    && r.tMax == AdvanceTMax(s.tMax, tDelta, a)
  }

  /** One step of the traversal: cross the nearest boundary. */
  function Advance(s: Traversal, step: Voxel, tDelta: Vec3): (r: Traversal)
    ensures exists a: Axis :: CrossesAlong(s, r, step, tDelta, a)
  {
    var (axis, minT) := FindNextAxis(s.tMax);
    var r := Traversal(minT, StepVoxel(s.voxel, axis, step), AdvanceTMax(s.tMax, tDelta, axis));
    assert CrossesAlong(s, r, step, tDelta, axis);
    r
  }

  predicate NonNegative(v: Vec3) {
    forall a: Axis :: 0.0 <= Component(v, a)
  }

  predicate Positive(v: Vec3) {
    0.0 < v.x && 0.0 < v.y && 0.0 < v.z
  }

  /** The parameter reached does not exceed any pending crossing. */
  predicate Ordered(s: Traversal) {
    forall a: Axis :: s.t <= Component(s.tMax, a)
  }

  /**
    With non-negative increments a step never moves t backwards and keeps it
    below every pending crossing; only the selected crossing moves, by its increment.
   */
  lemma AdvanceKeepsOrder(s: Traversal, step: Voxel, tDelta: Vec3)
    requires Ordered(s) && NonNegative(tDelta)
    ensures s.t <= Advance(s, step, tDelta).t
    ensures Ordered(Advance(s, step, tDelta))
  {
    var (axis, minT) := FindNextAxis(s.tMax);
    assert Component(s.tMax, axis) == minT;
  }

  /** The cell of a voxel inside the chunk, and nothing for a voxel outside it. */
  function VoxelAt(blocks: seq<u8>, v: Voxel): (r: Option<u8>)
    requires |blocks| == VOLUME
    ensures r.Some? <==> 0 <= v.x < SIZE && 0 <= v.y < SIZE && 0 <= v.z < SIZE
    ensures r.Some? ==> r.value == blocks[BlockIndex(v.x, v.y, v.z)]
  {
    if 0 <= v.x < SIZE && 0 <= v.y < SIZE && 0 <= v.z < SIZE then Some(Cell(blocks, v.x, v.y, v.z)) else None
  }

  predicate HitsBlock(blocks: seq<u8>, v: Voxel)
    requires |blocks| == VOLUME
  {
    VoxelAt(blocks, v).Some? && VoxelAt(blocks, v).value != 0
  }

  /**
    How many more times the crossing tm may still be selected below `limit`
    when each selection moves it on by `delta`.
   */
  function Budget(tm: real, limit: real, delta: real): nat
    requires 0.0 < delta
  {
    if tm < limit then
      var q := (limit - tm) / delta;
      assert 0.0 < q;
      q.Floor + 1
    else 0
  }

  /** Real division by a positive d is determined by multiplication. */
  lemma DivUnique(x: real, d: real, y: real)
    requires 0.0 < d && y * d == x
    ensures x / d == y
  {
  }

  lemma DivStep(a: real, d: real)
    requires 0.0 < d
    ensures (a - d) / d == a / d - 1.0
  {
    var q := a / d;
    assert q * d == a;
    assert (q - 1.0) * d == q * d - 1.0 * d;
    assert (q - 1.0) * d == a - d;
    DivUnique(a - d, d, q - 1.0);
  }

  lemma BudgetDrops(tm: real, limit: real, delta: real)
    requires 0.0 < delta && tm < limit
    ensures Budget(tm + delta, limit, delta) < Budget(tm, limit, delta)
  {
    if tm + delta < limit {
      DivStep(limit - tm, delta);
      assert limit - (tm + delta) == (limit - tm) - delta;
      assert ((limit - tm) / delta - 1.0).Floor == ((limit - tm) / delta).Floor - 1;
    }
  }

  /** A bound on the iterations still to come: it drops on every step taken below `limit`. */
  function Measure(s: Traversal, limit: real, tDelta: Vec3): nat
    requires Positive(tDelta)
  {
    Budget(s.tMax.x, limit, tDelta.x) + Budget(s.tMax.y, limit, tDelta.y) + Budget(s.tMax.z, limit, tDelta.z)
      + (if s.t < limit then 1 else 0)
  }

  lemma MeasureDrops(s: Traversal, limit: real, step: Voxel, tDelta: Vec3)
    requires Positive(tDelta) && s.t < limit
    ensures Measure(Advance(s, step, tDelta), limit, tDelta) < Measure(s, limit, tDelta)
  {
    var (axis, minT) := FindNextAxis(s.tMax);
    var tm := Component(s.tMax, axis);
    var d := Component(tDelta, axis);
    if tm < limit {
      BudgetDrops(tm, limit, d);
    }
  }

  /**
    The result of marching from state s: the first visited voxel, before t
    reaches the ray's range, that holds a non-air block inside the chunk.
   */
  function Trace(blocks: seq<u8>, ray: Ray, step: Voxel, tDelta: Vec3, s: Traversal): (r: Option<RaycastHit>)
    requires |blocks| == VOLUME && Positive(tDelta)
    ensures r.Some? ==> && r.value.voxel != 0
                        && r.value.distance < ray.distance
                        && r.value.position == At(ray, r.value.distance)
    decreases Measure(s, ray.distance, tDelta)
  {
    if ray.distance <= s.t then None
    else if HitsBlock(blocks, s.voxel) then Some(RaycastHit(At(ray, s.t), s.t, VoxelAt(blocks, s.voxel).value))
    else
      MeasureDrops(s, ray.distance, step, tDelta);
      Trace(blocks, ray, step, tDelta, Advance(s, step, tDelta))
  }

  /** The state after n steps. */
  function Iterate(s: Traversal, step: Voxel, tDelta: Vec3, n: nat): Traversal
    decreases n
  {
    if n == 0 then s else Iterate(Advance(s, step, tDelta), step, tDelta, n - 1)
  }

  /** A state the march passes through: still in range and not at a solid voxel. */
  predicate Open(blocks: seq<u8>, ray: Ray, s: Traversal)
    requires |blocks| == VOLUME
  {
    s.t < ray.distance && !HitsBlock(blocks, s.voxel)
  }

  /** The first n states are passed through. */
  predicate OpenFor(blocks: seq<u8>, ray: Ray, step: Voxel, tDelta: Vec3, s: Traversal, n: nat)
    requires |blocks| == VOLUME
  {
    forall k: nat | k < n :: Open(blocks, ray, Iterate(s, step, tDelta, k))
  }

  lemma OpenForShift(blocks: seq<u8>, ray: Ray, step: Voxel, tDelta: Vec3, s: Traversal, n: nat)
    requires |blocks| == VOLUME
    ensures OpenFor(blocks, ray, step, tDelta, s, n + 1) <==>
            Open(blocks, ray, s) && OpenFor(blocks, ray, step, tDelta, Advance(s, step, tDelta), n)
  {
    var s' := Advance(s, step, tDelta);
    assert forall k: nat :: Iterate(s, step, tDelta, k + 1) == Iterate(s', step, tDelta, k);
    if Open(blocks, ray, s) && OpenFor(blocks, ray, step, tDelta, s', n) {
      forall k: nat | k < n + 1 ensures Open(blocks, ray, Iterate(s, step, tDelta, k)) {
        if k > 0 {
          assert Iterate(s, step, tDelta, (k - 1) + 1) == Iterate(s', step, tDelta, k - 1);
        }
      }
    }
    if OpenFor(blocks, ray, step, tDelta, s, n + 1) {
      assert Iterate(s, step, tDelta, 0) == s;
      forall k: nat | k < n ensures Open(blocks, ray, Iterate(s', step, tDelta, k)) {
        assert Iterate(s, step, tDelta, k + 1) == Iterate(s', step, tDelta, k);
      }
    }
  }

  /** Passing through n open states does not change the outcome. */
  lemma {:induction false} TraceSkipsOpen(blocks: seq<u8>, ray: Ray, step: Voxel, tDelta: Vec3, s: Traversal, n: nat)
    requires |blocks| == VOLUME && Positive(tDelta)
    requires OpenFor(blocks, ray, step, tDelta, s, n)
    ensures Trace(blocks, ray, step, tDelta, s) == Trace(blocks, ray, step, tDelta, Iterate(s, step, tDelta, n))
    decreases n
  {
    if n > 0 {
      OpenForShift(blocks, ray, step, tDelta, s, n - 1);
      TraceSkipsOpen(blocks, ray, step, tDelta, Advance(s, step, tDelta), n - 1);
    }
  }

  /** A march that reports no hit ran through open states until t reached the ray's range. */
  lemma {:induction false} TraceMissWitness(blocks: seq<u8>, ray: Ray, step: Voxel, tDelta: Vec3, s: Traversal)
      returns (n: nat)
    requires |blocks| == VOLUME && Positive(tDelta)
    requires Trace(blocks, ray, step, tDelta, s).None?
    ensures OpenFor(blocks, ray, step, tDelta, s, n) && ray.distance <= Iterate(s, step, tDelta, n).t
    decreases Measure(s, ray.distance, tDelta)
  {
    if ray.distance <= s.t {
      n := 0;
      assert Iterate(s, step, tDelta, 0) == s;
    } else {
      var s' := Advance(s, step, tDelta);
      MeasureDrops(s, ray.distance, step, tDelta);
      var m := TraceMissWitness(blocks, ray, step, tDelta, s');
      OpenForShift(blocks, ray, step, tDelta, s, m);
      n := m + 1;
      assert Iterate(s, step, tDelta, m + 1) == Iterate(s', step, tDelta, m);
    }
  }

  /**
    A march reports no hit exactly when, after passing through open states only,
    the parameter reaches the ray's range.
   */
  lemma TraceMissIff(blocks: seq<u8>, ray: Ray, step: Voxel, tDelta: Vec3, s: Traversal)
    requires |blocks| == VOLUME && Positive(tDelta)
    ensures Trace(blocks, ray, step, tDelta, s).None? <==>
            exists n: nat :: OpenFor(blocks, ray, step, tDelta, s, n) && ray.distance <= Iterate(s, step, tDelta, n).t
  {
    if Trace(blocks, ray, step, tDelta, s).None? {
      var n := TraceMissWitness(blocks, ray, step, tDelta, s);
    } else if n: nat :| OpenFor(blocks, ray, step, tDelta, s, n) && ray.distance <= Iterate(s, step, tDelta, n).t {
      TraceSkipsOpen(blocks, ray, step, tDelta, s, n);
    }
  }

  /**
    A march reports a hit exactly when it passes through open states up to a
    state still in range at a solid voxel; the hit carries that state's
    parameter, the point of the ray there and the voxel's id.
   */
  lemma {:induction false} TraceHitIff(blocks: seq<u8>, ray: Ray, step: Voxel, tDelta: Vec3, s: Traversal, h: RaycastHit)
    requires |blocks| == VOLUME && Positive(tDelta)
    ensures Trace(blocks, ray, step, tDelta, s) == Some(h) <==>
            exists n: nat :: && OpenFor(blocks, ray, step, tDelta, s, n)
                             && var last := Iterate(s, step, tDelta, n);
                             && last.t < ray.distance
                             && HitsBlock(blocks, last.voxel)
                             && h == RaycastHit(At(ray, last.t), last.t, VoxelAt(blocks, last.voxel).value)
    decreases Measure(s, ray.distance, tDelta)
  {
    if Trace(blocks, ray, step, tDelta, s) == Some(h) {
      if HitsBlock(blocks, s.voxel) {
        assert OpenFor(blocks, ray, step, tDelta, s, 0) && Iterate(s, step, tDelta, 0) == s;
      } else {
        var s' := Advance(s, step, tDelta);
        MeasureDrops(s, ray.distance, step, tDelta);
        TraceHitIff(blocks, ray, step, tDelta, s', h);
        var n: nat :| && OpenFor(blocks, ray, step, tDelta, s', n)
                 && var last := Iterate(s', step, tDelta, n);
                 && last.t < ray.distance
                 && HitsBlock(blocks, last.voxel)
                 && h == RaycastHit(At(ray, last.t), last.t, VoxelAt(blocks, last.voxel).value);
        OpenForShift(blocks, ray, step, tDelta, s, n);
        assert Iterate(s, step, tDelta, n + 1) == Iterate(s', step, tDelta, n);
      }
    } else {
      if n: nat :| && OpenFor(blocks, ray, step, tDelta, s, n)
                   && var last := Iterate(s, step, tDelta, n);
                   && last.t < ray.distance
                   && HitsBlock(blocks, last.voxel)
                   && h == RaycastHit(At(ray, last.t), last.t, VoxelAt(blocks, last.voxel).value) {
        TraceSkipsOpen(blocks, ray, step, tDelta, s, n);
      }
    }
  }

  /**
    A hit names a non-air voxel, lies strictly within the ray's range, sits on
    the ray at its own distance, and, from an ordered state, is not behind it.
   */
  lemma {:induction false} TraceHitSound(blocks: seq<u8>, ray: Ray, step: Voxel, tDelta: Vec3, s: Traversal)
    requires |blocks| == VOLUME && Positive(tDelta)
    requires Trace(blocks, ray, step, tDelta, s).Some?
    ensures var h := Trace(blocks, ray, step, tDelta, s).value;
            && h.voxel != 0
            && h.distance < ray.distance
            && h.position == At(ray, h.distance)
            && (Ordered(s) ==> s.t <= h.distance)
    decreases Measure(s, ray.distance, tDelta)
  {
    if !HitsBlock(blocks, s.voxel) {
      var s' := Advance(s, step, tDelta);
      MeasureDrops(s, ray.distance, step, tDelta);
      TraceHitSound(blocks, ray, step, tDelta, s');
      if Ordered(s) {
        AdvanceKeepsOrder(s, step, tDelta);
      }
    }
  }

  /** Where a march starts: t = 0 at the voxel holding the origin. */
  function Start(ray: Ray, tMax0: Vec3): (s: Traversal)
    ensures s.t == 0.0 && s.tMax == tMax0
    ensures forall a: Axis :: Coord(s.voxel, a) as real <= Component(ray.origin, a) < Coord(s.voxel, a) as real + 1.0
  {
    Traversal(0.0, Voxel(ray.origin.x.Floor, ray.origin.y.Floor, ray.origin.z.Floor), tMax0)
  }

  /** The per-axis step signs of a direction. */
  function StepOf(direction: Vec3): (step: Voxel)
    ensures forall a: Axis :: Coord(step, a) == 1 || Coord(step, a) == -1
    ensures forall a: Axis :: Coord(step, a) < 0 <==> Component(direction, a) < 0.0
  {
    Voxel(Signum(direction.x), Signum(direction.y), Signum(direction.z))
  }

  /**
    Marches `ray` through `chunk` from the voxel holding its origin. `tMax0` and
    `tDelta` are the first boundary crossings and the per-voxel increments.
   */
  method March(ray: Ray, chunk: Chunk, tMax0: Vec3, tDelta: Vec3) returns (hit: Option<RaycastHit>)
    requires chunk.Valid() && Positive(tDelta)
    ensures hit == Trace(chunk.blocks[..], ray, StepOf(ray.direction), tDelta, Start(ray, tMax0))
    ensures hit.Some? ==> hit.value.voxel != 0 && hit.value.distance < ray.distance
                          && hit.value.position == At(ray, hit.value.distance)
    ensures hit.Some? && NonNegative(tMax0) ==> 0.0 <= hit.value.distance
  {
    ghost var blocks := chunk.blocks[..];
    var step := StepOf(ray.direction);
    var start := Start(ray, tMax0);
    var t := start.t;
    var voxel := start.voxel;
    var tMax := start.tMax;
    while t < ray.distance
      invariant Trace(blocks, ray, step, tDelta, Traversal(t, voxel, tMax)) == Trace(blocks, ray, step, tDelta, start)
      decreases Measure(Traversal(t, voxel, tMax), ray.distance, tDelta)
    {
      if 0 <= voxel.x < SIZE && 0 <= voxel.y < SIZE && 0 <= voxel.z < SIZE {
        var block := chunk.GetBlock(voxel.x, voxel.y, voxel.z);
        if block != 0 {
          hit := Some(RaycastHit(At(ray, t), t, block));
          TraceHitSound(blocks, ray, step, tDelta, start);
          return;
        }
      }
      MeasureDrops(Traversal(t, voxel, tMax), ray.distance, step, tDelta);
      var (axis, minT) := FindNextAxis(tMax);
      t := minT;
      voxel := StepVoxel(voxel, axis, step);
      tMax := AdvanceTMax(tMax, tDelta, axis);
    }
    hit := None;
  }
}
