/** Collision queries against the axis-aligned colliders of the level (walls,
    props and doors, in that order): pushing a circle out of the boxes,
    testing a point, and testing a moving segment against a box and against
    a sphere. All boxes live on the XZ plane. */
module Collision {
  import opened State

  // ---------------------------------------------------------------------
  // Arithmetic helpers
  // ---------------------------------------------------------------------

  function AbsR(a: real): real { if a < 0.0 then -a else a }

  lemma MulNonNeg(a: real, b: real)
    requires 0.0 <= a && 0.0 <= b
    ensures 0.0 <= a * b
  {
  }

  lemma MulPositive(a: real, b: real)
    requires 0.0 < a && 0.0 < b
    ensures 0.0 < a * b
  {
  }

  lemma SquareNonNeg(a: real)
    ensures 0.0 <= a * a
  {
    if a < 0.0 {
      MulNonNeg(-a, -a);
      assert (-a) * (-a) == a * a;
    } else {
      MulNonNeg(a, a);
    }
  }

  lemma SquarePositive(a: real)
    requires a != 0.0
    ensures 0.0 < a * a
  {
    if a < 0.0 {
      MulPositive(-a, -a);
      assert (-a) * (-a) == a * a;
    } else {
      MulPositive(a, a);
    }
  }

  /** `Math.max(lo, Math.min(hi, v))`. */
  function Clamp(v: real, lo: real, hi: real): real
  {
    MaxReal(lo, MinReal(hi, v))
  }

  /** `Math.sign(d || 1)`: the sign of d, with 0 counted as positive. */
  function SignOrOne(d: real): real
  {
    if d < 0.0 then -1.0 else 1.0
  }

  /** A box whose bounds are ordered, as every collider of the game is. */
  predicate ProperBox(b: Aabb)
  {
    b.minX <= b.maxX && b.minZ <= b.maxZ
  }

  /** Closed containment of a point's XZ projection. */
  predicate ContainsXZ(b: Aabb, p: Vec3)
  {
    b.minX <= p.x <= b.maxX && b.minZ <= p.z <= b.maxZ
  }

  /** `state.wallAabbs.concat(state.propColliders, state.doorColliders)`. */
  function Colliders(s: Session): seq<Aabb>
    reads s
  {
    s.wallAabbs + s.propColliders + s.doorColliders
  }

  // ---------------------------------------------------------------------
  // resolveCollisions
  // ---------------------------------------------------------------------

  /** Squared XZ distance from p to the closest point of the box. */
  function GapSq(p: Vec3, b: Aabb): real
  {
    var dx := p.x - Clamp(p.x, b.minX, b.maxX);
    var dz := p.z - Clamp(p.z, b.minZ, b.maxZ);
    dx * dx + dz * dz
  }

  /** One iteration of the collider loop. */
  function PushOut(p: Vec3, b: Aabb, radius: real): Vec3
  {
    var closestX := Clamp(p.x, b.minX, b.maxX);
    var closestZ := Clamp(p.z, b.minZ, b.maxZ);
    var dx := p.x - closestX;
    var dz := p.z - closestZ;
    if dx * dx + dz * dz < radius * radius then
      if AbsR(dx) > AbsR(dz) then p.(x := closestX + SignOrOne(dx) * radius)
      else p.(z := closestZ + SignOrOne(dz) * radius)
    else p
  }

  /** The position after pushing out of the colliders one after another. */
  function ResolveAll(p: Vec3, cs: seq<Aabb>, radius: real): Vec3
  {
    if |cs| == 0 then p else PushOut(ResolveAll(p, cs[..|cs| - 1], radius), cs[|cs| - 1], radius)
  }

  /** `resolveCollisions`: the mutated position is returned. */
  method ResolveCollisions(s: Session, position: Vec3, radius: real) returns (p: Vec3)
    ensures p == ResolveAll(position, Colliders(s), radius)
  {
    var colliders := s.wallAabbs + s.propColliders + s.doorColliders;
    p := position;
    for i := 0 to |colliders|
      invariant p == ResolveAll(position, colliders[..i], radius)
    {
      p := PushOut(p, colliders[i], radius);
      assert colliders[..i + 1][..i] == colliders[..i];
    }
    assert colliders[..|colliders|] == colliders;
  }

  /** One push moves along a single axis to the box face plus the radius and,
      for a centre outside the box, leaves it out of contact with that box; a
      centre inside the box is moved by +radius along z. */
  lemma PushOutSeparates(p: Vec3, b: Aabb, radius: real)
    requires ProperBox(b) && 0.0 < radius
    requires GapSq(p, b) < radius * radius
    ensures var q := PushOut(p, b, radius);
            q.y == p.y &&
            ((q.z == p.z && (q.x == b.minX - radius || q.x == b.maxX + radius)) ||
             (q.x == p.x && (q.z == b.minZ - radius || q.z == b.maxZ + radius || q.z == p.z + radius)))
    ensures !ContainsXZ(b, p) ==> GapSq(PushOut(p, b, radius), b) >= radius * radius
    ensures ContainsXZ(b, p) ==> PushOut(p, b, radius) == p.(z := p.z + radius)
  {
    var dx := p.x - Clamp(p.x, b.minX, b.maxX);
    var dz := p.z - Clamp(p.z, b.minZ, b.maxZ);
    if AbsR(dx) > AbsR(dz) {
      PushAlongX(p, b, radius);
    } else if dz != 0.0 {
      PushAlongZ(p, b, radius);
    } else {
      assert dx == 0.0;
    }
  }

  lemma PushAlongX(p: Vec3, b: Aabb, radius: real)
    requires ProperBox(b) && 0.0 < radius
    requires GapSq(p, b) < radius * radius
    requires AbsR(p.x - Clamp(p.x, b.minX, b.maxX)) > AbsR(p.z - Clamp(p.z, b.minZ, b.maxZ))
    ensures var q := PushOut(p, b, radius);
            q == p.(x := q.x) && (q.x == b.minX - radius || q.x == b.maxX + radius) &&
            !ContainsXZ(b, p) && GapSq(q, b) >= radius * radius
  {
    var dx := p.x - Clamp(p.x, b.minX, b.maxX);
    var dz := p.z - Clamp(p.z, b.minZ, b.maxZ);
    var q := p.(x := Clamp(p.x, b.minX, b.maxX) + SignOrOne(dx) * radius);
    assert PushOut(p, b, radius) == q;
    var ex := q.x - Clamp(q.x, b.minX, b.maxX);
    if dx > 0.0 {
      assert ex == radius;
    } else {
      assert ex == -radius;
    }
    assert ex * ex == radius * radius;
    SquareNonNeg(dz);
    assert GapSq(q, b) == ex * ex + dz * dz;
  }

  lemma PushAlongZ(p: Vec3, b: Aabb, radius: real)
    requires ProperBox(b) && 0.0 < radius
    requires GapSq(p, b) < radius * radius
    requires !(AbsR(p.x - Clamp(p.x, b.minX, b.maxX)) > AbsR(p.z - Clamp(p.z, b.minZ, b.maxZ)))
    requires p.z - Clamp(p.z, b.minZ, b.maxZ) != 0.0
    ensures var q := PushOut(p, b, radius);
            q == p.(z := q.z) && (q.z == b.minZ - radius || q.z == b.maxZ + radius) &&
            !ContainsXZ(b, p) && GapSq(q, b) >= radius * radius
  {
    var dx := p.x - Clamp(p.x, b.minX, b.maxX);
    var dz := p.z - Clamp(p.z, b.minZ, b.maxZ);
    var q := p.(z := Clamp(p.z, b.minZ, b.maxZ) + SignOrOne(dz) * radius);
    assert PushOut(p, b, radius) == q;
    var ez := q.z - Clamp(q.z, b.minZ, b.maxZ);
    if dz > 0.0 {
      assert ez == radius;
    } else {
      assert ez == -radius;
    }
    assert ez * ez == radius * radius;
    SquareNonNeg(dx);
    assert GapSq(q, b) == dx * dx + ez * ez;
  }

  /** Collision resolution never changes the height. */
  lemma {:induction false} ResolveKeepsHeight(p: Vec3, cs: seq<Aabb>, radius: real)
    ensures ResolveAll(p, cs, radius).y == p.y
    decreases |cs|
  {
    if |cs| > 0 {
      ResolveKeepsHeight(p, cs[..|cs| - 1], radius);
    }
  }

  /** A position in contact with no collider is left where it is. */
  lemma {:induction false} ResolveWithoutContact(p: Vec3, cs: seq<Aabb>, radius: real)
    requires forall i :: 0 <= i < |cs| ==> GapSq(p, cs[i]) >= radius * radius
    ensures ResolveAll(p, cs, radius) == p
    decreases |cs|
  {
    if |cs| > 0 {
      var init := cs[..|cs| - 1];
      assert forall i :: 0 <= i < |init| ==> init[i] == cs[i];
      ResolveWithoutContact(p, init, radius);
      assert ResolveAll(p, init, radius) == p;
      assert GapSq(p, cs[|cs| - 1]) >= radius * radius;
    }
  }

  // ---------------------------------------------------------------------
  // isPointInsideObstacle
  // ---------------------------------------------------------------------

  predicate InsideAny(cs: seq<Aabb>, p: Vec3)
  {
    exists i :: 0 <= i < |cs| && ContainsXZ(cs[i], p)
  }

  /** `isPointInsideObstacle`: whether some collider contains the point (closed bounds). */
  method IsPointInsideObstacle(s: Session, position: Vec3) returns (inside: bool)
    ensures inside <==> InsideAny(Colliders(s), position)
  {
    var colliders := s.wallAabbs + s.propColliders + s.doorColliders;
    for i := 0 to |colliders|
      invariant forall k :: 0 <= k < i ==> !ContainsXZ(colliders[k], position)
    {
      var wall := colliders[i];
      if position.x >= wall.minX && position.x <= wall.maxX &&
         position.z >= wall.minZ && position.z <= wall.maxZ {
        assert ContainsXZ(Colliders(s)[i], position);
        return true;
      }
    }
    return false;
  }

  // ---------------------------------------------------------------------
  // segmentAabbIntersect (slab test on the XZ plane)
  // ---------------------------------------------------------------------

  /** Below this magnitude a direction component counts as parallel. */
  const Epsilon: real := 0.000001

  /** One axis of the slab test. */
  datatype Slab = Slab(origin: real, direction: real, min: real, max: real)

  function Slabs(start: Vec3, end: Vec3, b: Aabb): seq<Slab>
  {
    [Slab(start.x, end.x - start.x, b.minX, b.maxX), Slab(start.z, end.z - start.z, b.minZ, b.maxZ)]
  }

  /** The parameter at which a non-parallel line meets the face `bound`:
      `(bound - origin) * inv` with `inv = 1 / direction`. */
  function Face(bound: real, a: Slab): real
    requires a.direction != 0.0
  {
    (bound - a.origin) * (1.0 / a.direction)
  }

  /** `t1` after the swap: the smaller face parameter. */
  function Entry(a: Slab): real
    requires a.direction != 0.0
  {
    var t1 := Face(a.min, a);
    var t2 := Face(a.max, a);
    if t1 > t2 then t2 else t1
  }

  /** `t2` after the swap: the larger face parameter. */
  function Exit(a: Slab): real
    requires a.direction != 0.0
  {
    var t1 := Face(a.min, a);
    var t2 := Face(a.max, a);
    if t1 > t2 then t1 else t2
  }

  /** The loop body on one axis: None is `return false`, otherwise the new
      parameter interval (tMin, tMax). */
  function ClipAxis(a: Slab, tMin: real, tMax: real): Option<(real, real)>
  {
    if AbsR(a.direction) < Epsilon then
      if a.origin < a.min || a.origin > a.max then None else Some((tMin, tMax))
    else
      var newMin := MaxReal(tMin, Entry(a));
      var newMax := MinReal(tMax, Exit(a));
      if newMin > newMax then None else Some((newMin, newMax))
  }

  function Clip(axes: seq<Slab>, tMin: real, tMax: real): bool
  {
    if |axes| == 0 then true
    else match ClipAxis(axes[0], tMin, tMax)
      case None => false
      case Some(iv) => Clip(axes[1..], iv.0, iv.1)
  }

  /** What `segmentAabbIntersect` returns. */
  predicate SegmentHitsBox(start: Vec3, end: Vec3, b: Aabb)
  {
    Clip(Slabs(start, end, b), 0.0, 1.0)
  }

  /** `segmentAabbIntersect`, the loop over the two axes. */
  method SegmentAabbIntersect(start: Vec3, end: Vec3, box: Aabb) returns (hit: bool)
    ensures hit == SegmentHitsBox(start, end, box)
  {
    var tMin := 0.0;
    var tMax := 1.0;
    var axes := Slabs(start, end, box);
    for i := 0 to 2
      invariant Clip(axes[i..], tMin, tMax) == SegmentHitsBox(start, end, box)
    {
      var axis := axes[i];
      assert axes[i..][0] == axis && axes[i..][1..] == axes[i + 1..];
      if AbsR(axis.direction) < Epsilon {
        if axis.origin < axis.min || axis.origin > axis.max {
          return false;
        }
        continue;
      }
      var t1 := Face(axis.min, axis);
      var t2 := Face(axis.max, axis);
      if t1 > t2 {
        t1, t2 := t2, t1;
      }
      assert t1 == Entry(axis) && t2 == Exit(axis);
      tMin := MaxReal(tMin, t1);
      tMax := MinReal(tMax, t2);
      if tMin > tMax {
        return false;
      }
    }
    return true;
  }

  /** The point at parameter t of the segment. */
  function PointAt(start: Vec3, end: Vec3, t: real): Vec3
  {
    Vec3(start.x + t * (end.x - start.x), start.y + t * (end.y - start.y), start.z + t * (end.z - start.z))
  }

  predicate InSlab(a: Slab, t: real)
  {
    a.min <= a.origin + t * a.direction <= a.max
  }

  /** A direction component the parallel test treats exactly: zero or not tiny. */
  predicate RegularComponent(d: real)
  {
    d == 0.0 || AbsR(d) >= Epsilon
  }

  predicate RegularSlab(a: Slab)
  {
    RegularComponent(a.direction) && a.min <= a.max
  }

  lemma MulMonotone(x: real, y: real, d: real)
    requires 0.0 < d
    ensures x <= y <==> x * d <= y * d
  {
    assert (y - x) * d == y * d - x * d;
    if x <= y {
      MulNonNeg(y - x, d);
    } else {
      MulPositive(x - y, d);
      assert (x - y) * d == x * d - y * d;
    }
  }

  lemma FaceTimes(bound: real, a: Slab)
    requires a.direction != 0.0
    ensures Face(bound, a) * a.direction == bound - a.origin
  {
  }

  lemma FaceIncreasing(bound: real, a: Slab, t: real)
    requires a.direction > 0.0
    ensures bound <= a.origin + t * a.direction <==> Face(bound, a) <= t
    ensures a.origin + t * a.direction <= bound <==> t <= Face(bound, a)
  {
    FaceTimes(bound, a);
    MulMonotone(Face(bound, a), t, a.direction);
    MulMonotone(t, Face(bound, a), a.direction);
  }

  lemma FaceDecreasing(bound: real, a: Slab, t: real)
    requires a.direction < 0.0
    ensures bound <= a.origin + t * a.direction <==> t <= Face(bound, a)
    ensures a.origin + t * a.direction <= bound <==> Face(bound, a) <= t
  {
    var f := Face(bound, a);
    var e := -a.direction;
    FaceTimes(bound, a);
    MulMonotone(f, t, e);
    MulMonotone(t, f, e);
    assert t * e == -(t * a.direction) && f * e == -(f * a.direction);
  }

  /** On a non-parallel axis the parameters whose point lies in the slab form
      the closed interval [Entry, Exit]. */
  lemma SlabTimes(a: Slab, t: real)
    requires a.direction != 0.0 && a.min <= a.max
    ensures InSlab(a, t) <==> Entry(a) <= t <= Exit(a)
  {
    if a.direction > 0.0 {
      FaceIncreasing(a.min, a, t);
      FaceIncreasing(a.max, a, t);
      FaceIncreasing(a.min, a, Face(a.max, a));
    } else {
      FaceDecreasing(a.min, a, t);
      FaceDecreasing(a.max, a, t);
      FaceDecreasing(a.min, a, Face(a.max, a));
    }
  }

  /** One axis of the test is exact: it keeps precisely the parameters of the
      current interval whose point lies in the slab, and gives up only when
      there are none. */
  lemma ClipAxisExact(a: Slab, tMin: real, tMax: real)
    requires RegularSlab(a)
    ensures ClipAxis(a, tMin, tMax).None? ==>
              forall t :: tMin <= t <= tMax ==> !InSlab(a, t)
    ensures ClipAxis(a, tMin, tMax).Some? ==>
              var iv := ClipAxis(a, tMin, tMax).value;
              (tMin <= tMax ==> iv.0 <= iv.1) &&
              forall t :: iv.0 <= t <= iv.1 <==> tMin <= t <= tMax && InSlab(a, t)
  {
    if AbsR(a.direction) < Epsilon {
      ClipParallelExact(a, tMin, tMax);
    } else {
      forall t
        ensures InSlab(a, t) <==> Entry(a) <= t <= Exit(a)
      {
        SlabTimes(a, t);
      }
    }
  }

  lemma ClipParallelExact(a: Slab, tMin: real, tMax: real)
    requires RegularSlab(a) && AbsR(a.direction) < Epsilon
    ensures forall t :: InSlab(a, t) <==> a.min <= a.origin <= a.max
  {
    assert a.direction == 0.0;
    forall t
      ensures InSlab(a, t) <==> a.min <= a.origin <= a.max
    {
      assert t * a.direction == 0.0;
    }
  }

  predicate InAllSlabs(axes: seq<Slab>, t: real)
  {
    forall k :: 0 <= k < |axes| ==> InSlab(axes[k], t)
  }

  /** The whole clipping succeeds exactly when some parameter of the starting
      interval lies in every slab. */
  lemma {:induction false} ClipExact(axes: seq<Slab>, tMin: real, tMax: real)
    requires tMin <= tMax
    requires forall k :: 0 <= k < |axes| ==> RegularSlab(axes[k])
    ensures Clip(axes, tMin, tMax) <==> exists t :: tMin <= t <= tMax && InAllSlabs(axes, t)
    decreases |axes|
  {
    if |axes| == 0 {
      assert InAllSlabs(axes, tMin);
    } else {
      ClipAxisExact(axes[0], tMin, tMax);
      match ClipAxis(axes[0], tMin, tMax)
      case None =>
        forall t | tMin <= t <= tMax
          ensures !InAllSlabs(axes, t)
        {
          assert !InSlab(axes[0], t);
        }
      case Some(iv) =>
        ClipExact(axes[1..], iv.0, iv.1);
        if Clip(axes, tMin, tMax) {
          var t :| iv.0 <= t <= iv.1 && InAllSlabs(axes[1..], t);
          assert forall k :: 1 <= k < |axes| ==> axes[k] == axes[1..][k - 1];
          assert InAllSlabs(axes, t);
        }
        if exists t :: tMin <= t <= tMax && InAllSlabs(axes, t) {
          var t :| tMin <= t <= tMax && InAllSlabs(axes, t);
          assert InSlab(axes[0], t);
          assert forall k :: 0 <= k < |axes[1..]| ==> axes[1..][k] == axes[k + 1];
          assert InAllSlabs(axes[1..], t);
        }
    }
  }

  /** For a proper box and a direction whose components are each zero or not
      tiny, the slab test answers exactly whether some point of the segment
      lies in the box. */
  lemma SegmentHitsBoxExact(start: Vec3, end: Vec3, b: Aabb)
    requires ProperBox(b)
    requires RegularComponent(end.x - start.x) && RegularComponent(end.z - start.z)
    ensures SegmentHitsBox(start, end, b) <==>
            exists t :: 0.0 <= t <= 1.0 && ContainsXZ(b, PointAt(start, end, t))
  {
    var axes := Slabs(start, end, b);
    assert RegularSlab(axes[0]) && RegularSlab(axes[1]);
    ClipExact(axes, 0.0, 1.0);
    forall t
      ensures InAllSlabs(axes, t) <==> ContainsXZ(b, PointAt(start, end, t))
    {
      SlabsAt(start, end, b, t);
    }
  }

  /** The two slabs hold the point at t exactly when the box contains it. */
  lemma SlabsAt(start: Vec3, end: Vec3, b: Aabb, t: real)
    ensures InAllSlabs(Slabs(start, end, b), t) <==> ContainsXZ(b, PointAt(start, end, t))
  {
    var axes := Slabs(start, end, b);
    var p := PointAt(start, end, t);
    assert axes[0].origin + t * axes[0].direction == p.x;
    assert axes[1].origin + t * axes[1].direction == p.z;
  }

  lemma ClipAxisFromInside(a: Slab, tMin: real, tMax: real)
    requires a.min <= a.origin <= a.max && tMin <= 0.0 <= tMax
    ensures ClipAxis(a, tMin, tMax).Some?
    ensures ClipAxis(a, tMin, tMax).value.0 <= 0.0 <= ClipAxis(a, tMin, tMax).value.1
  {
    if AbsR(a.direction) >= Epsilon {
      SlabTimes(a, 0.0);
      assert InSlab(a, 0.0);
    }
  }

  /** A segment starting inside a box hits it, whatever its direction. */
  lemma SegmentFromInsideHits(start: Vec3, end: Vec3, b: Aabb)
    requires ContainsXZ(b, start)
    ensures SegmentHitsBox(start, end, b)
  {
    var axes := Slabs(start, end, b);
    ClipAxisFromInside(axes[0], 0.0, 1.0);
    var iv := ClipAxis(axes[0], 0.0, 1.0).value;
    ClipAxisFromInside(axes[1], iv.0, iv.1);
    assert axes[1..][0] == axes[1] && axes[1..][1..] == [];
  }

  /** `wallAabbs.some(...) || propColliders.some(...) || doorColliders.some(...)`
      with the slab test. */
  predicate SegmentHitsAny(cs: seq<Aabb>, start: Vec3, end: Vec3)
  {
    exists i :: 0 <= i < |cs| && SegmentHitsBox(start, end, cs[i])
  }

  // ---------------------------------------------------------------------
  // segmentSphereIntersect
  // ---------------------------------------------------------------------

  function Sub(a: Vec3, b: Vec3): Vec3 { Vec3(a.x - b.x, a.y - b.y, a.z - b.z) }
  function Dot(a: Vec3, b: Vec3): real { a.x * b.x + a.y * b.y + a.z * b.z }
  function DistSq(a: Vec3, b: Vec3): real { Dot(Sub(a, b), Sub(a, b)) }

  /** `a.distanceTo(b) <= r`, stated without the square root. */
  predicate WithinRadius(a: Vec3, b: Vec3, r: real)
  {
    0.0 <= r && DistSq(a, b) <= r * r
  }

  /** The parameter of the segment point closest to `center`, clamped to [0, 1]. */
  function ClosestParameter(start: Vec3, end: Vec3, center: Vec3): real
    requires Dot(Sub(end, start), Sub(end, start)) != 0.0
  {
    var dir := Sub(end, start);
    MaxReal(0.0, MinReal(1.0, Dot(Sub(center, start), dir) / Dot(dir, dir)))
  }

  /** `segmentSphereIntersect`. */
  predicate SegmentHitsSphere(start: Vec3, end: Vec3, center: Vec3, radius: real)
  {
    var dir := Sub(end, start);
    if Dot(dir, dir) == 0.0 then WithinRadius(start, center, radius)
    else WithinRadius(PointAt(start, end, ClosestParameter(start, end, center)), center, radius)
  }

  lemma DotSelfNonNegative(a: Vec3)
    ensures Dot(a, a) >= 0.0
  {
    SquareNonNeg(a.x);
    SquareNonNeg(a.y);
    SquareNonNeg(a.z);
  }

  /** The squared distance from the segment point at s to `center`, as a
      quadratic in s. */
  lemma DistanceQuadratic(start: Vec3, end: Vec3, center: Vec3, s: real)
    ensures var dir := Sub(end, start);
            var w := Sub(center, start);
            DistSq(PointAt(start, end, s), center) == Dot(dir, dir) * s * s - 2.0 * s * Dot(w, dir) + Dot(w, w)
  {
  }

  /** f(s) - f(t) for the quadratic f(s) = L s^2 - 2 p s. */
  lemma QuadraticDifference(L: real, p: real, s: real, t: real)
    ensures L * s * s - 2.0 * s * p - (L * t * t - 2.0 * t * p) ==
            L * ((s - t) * (s - t)) + 2.0 * ((s - t) * (L * t - p))
  {
  }

  /** The clamped minimiser t of L s^2 - 2 p s over [0, 1]: (s - t)(L t - p) >= 0. */
  lemma ClampedMinimiser(L: real, p: real, s: real)
    requires 0.0 < L && 0.0 <= s <= 1.0
    ensures var t := MaxReal(0.0, MinReal(1.0, p / L));
            (s - t) * (L * t - p) >= 0.0
  {
    var q := p / L;
    var t := MaxReal(0.0, MinReal(1.0, q));
    assert L * q == p;
    if q < 0.0 {
      MulPositive(-q, L);
      assert (-q) * L == -p;
      MulNonNeg(s, -p);
      assert (s - t) * (L * t - p) == s * (-p);
    } else if q > 1.0 {
      MulPositive(q - 1.0, L);
      assert (q - 1.0) * L == p - L;
      MulNonNeg(1.0 - s, p - L);
      assert (s - t) * (L * t - p) == (1.0 - s) * (p - L);
    } else {
      assert t == q;
      assert L * t - p == 0.0;
    }
  }

  /** The clamped projection is the point of the segment closest to `center`. */
  lemma ClosestParameterIsClosest(start: Vec3, end: Vec3, center: Vec3, s: real)
    requires Dot(Sub(end, start), Sub(end, start)) != 0.0
    requires 0.0 <= s <= 1.0
    ensures DistSq(PointAt(start, end, ClosestParameter(start, end, center)), center) <=
            DistSq(PointAt(start, end, s), center)
  {
    var dir := Sub(end, start);
    var w := Sub(center, start);
    var L := Dot(dir, dir);
    var p := Dot(w, dir);
    var t := ClosestParameter(start, end, center);
    DotSelfNonNegative(dir);
    DistanceQuadratic(start, end, center, s);
    DistanceQuadratic(start, end, center, t);
    QuadraticMinimum(L, p, Dot(w, w), s);
  }

  /** Over [0, 1], L s^2 - 2 p s + c is smallest at the clamped p / L. */
  lemma QuadraticMinimum(L: real, p: real, c: real, s: real)
    requires 0.0 < L && 0.0 <= s <= 1.0
    ensures var t := MaxReal(0.0, MinReal(1.0, p / L));
            L * t * t - 2.0 * t * p + c <= L * s * s - 2.0 * s * p + c
  {
    var t := MaxReal(0.0, MinReal(1.0, p / L));
    QuadraticDifference(L, p, s, t);
    SquareNonNeg(s - t);
    MulNonNeg(L, (s - t) * (s - t));
    ClampedMinimiser(L, p, s);
  }

  /** For a segment of non-zero length the sphere test answers exactly
      whether some point of the segment lies within the radius of the centre. */
  lemma SegmentHitsSphereExact(start: Vec3, end: Vec3, center: Vec3, radius: real)
    requires Dot(Sub(end, start), Sub(end, start)) != 0.0
    ensures SegmentHitsSphere(start, end, center, radius) <==>
            exists s :: 0.0 <= s <= 1.0 && WithinRadius(PointAt(start, end, s), center, radius)
  {
    if exists s :: 0.0 <= s <= 1.0 && WithinRadius(PointAt(start, end, s), center, radius) {
      var s :| 0.0 <= s <= 1.0 && WithinRadius(PointAt(start, end, s), center, radius);
      ClosestParameterIsClosest(start, end, center, s);
    }
  }
}
