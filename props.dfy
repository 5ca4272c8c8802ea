/** Destructible props. The session keeps two parallel lists, `props` and
    `propColliders`; every operation here keeps entry i of the one the
    collider of entry i of the other. */
module Props {
  import opened State
  import opened Grid
  import opened Collision

  /** The two lists agree entry by entry. */
  predicate Aligned(props: seq<Prop>, colliders: seq<Aabb>)
  {
    |props| == |colliders| && forall i :: 0 <= i < |props| ==> props[i].collider == colliders[i]
  }

  /** `clearProps`. */
  method ClearProps(s: Session)
    modifies s`props, s`propColliders
    ensures s.props == [] && s.propColliders == []
  {
    s.props := [];
    s.propColliders := [];
  }

  // ---------------------------------------------------------------------
  // createProp
  // ---------------------------------------------------------------------

  const PropKinds: seq<string> := ["crate", "barrel", "pillar", "rock"]

  /** `type ?? types[Math.floor(Math.random() * types.length)]` for the
      draw u of Math.random(), which is made only when no type is given. */
  function ResolvePropKind(kind: Option<string>, u: real): (k: string)
    ensures kind.Some? ==> k == kind.value
    ensures kind.None? && 0.0 <= u < 1.0 ==> k in PropKinds
  {
    match kind
    case Some(k) => k
    case None =>
      var i := ScaleUnit(u, |PropKinds|);
      if 0 <= i < |PropKinds| then PropKinds[i] else PropKinds[0]
  }

  /** The starting health of a prop of the given kind. */
  function PropHealth(kind: string): (h: int)
    ensures h == 3 <==> kind == "pillar"
    ensures h == 2 <==> kind != "pillar"
  {
    if kind == "pillar" then 3 else 2
  }

  /** The mesh is lifted to half its height: 1.4 for a pillar, else 0.6. */
  function MeshPosition(position: Vec3, kind: string): (p: Vec3)
    ensures p.x == position.x && p.z == position.z
    ensures p.y == (if kind == "pillar" then 1.4 else 0.6)
  {
    position.(y := if kind == "pillar" then 1.4 else 0.6)
  }

  /** `createProp` for a resolved kind. `boundsOf(kind, p)` is the box of the
      mesh of that kind placed at p, which the rendering library computes. */
  function CreateProp(position: Vec3, kind: string, boundsOf: (string, Vec3) -> Aabb): (p: Prop)
    ensures p.health == PropHealth(kind) && 2 <= p.health <= 3
    ensures p.collider == boundsOf(kind, MeshPosition(position, kind))
  {
    Prop(boundsOf(kind, MeshPosition(position, kind)), PropHealth(kind))
  }

  /** The prop that `spawnProps` creates for a spawn. */
  function SpawnedProp(spawn: SpawnInfo, boundsOf: (string, Vec3) -> Aabb): Prop
  {
    CreateProp(GridToWorld(spawn.cell.x, spawn.cell.y), spawn.kind, boundsOf)
  }

  /** `spawnProps`: clears both lists, then pushes one prop and its collider
      per spawn, in order. */
  method SpawnProps(s: Session, spawns: seq<SpawnInfo>, boundsOf: (string, Vec3) -> Aabb)
    modifies s`props, s`propColliders
    ensures |s.props| == |spawns| && Aligned(s.props, s.propColliders)
    ensures forall i :: 0 <= i < |spawns| ==> s.props[i] == SpawnedProp(spawns[i], boundsOf)
  {
    ClearProps(s);
    for i := 0 to |spawns|
      invariant |s.props| == i && Aligned(s.props, s.propColliders)
      invariant forall k :: 0 <= k < i ==> s.props[k] == SpawnedProp(spawns[k], boundsOf)
    {
      var spawn := spawns[i];
      var prop := CreateProp(GridToWorld(spawn.cell.x, spawn.cell.y), spawn.kind, boundsOf);
      s.props := s.props + [prop];
      s.propColliders := s.propColliders + [prop.collider];
    }
  }

  // ---------------------------------------------------------------------
  // damageProp
  // ---------------------------------------------------------------------

  /** The two lists after one point of damage to prop i: the prop loses one
      health, and is removed from both lists once its health is at most 0. */
  function Damaged(props: seq<Prop>, colliders: seq<Aabb>, i: int): (r: (seq<Prop>, seq<Aabb>))
    requires 0 <= i < |props| && |props| == |colliders|
    ensures |r.0| == |r.1|
  {
    var health := props[i].health - 1;
    if health <= 0 then (props[..i] + props[i + 1..], colliders[..i] + colliders[i + 1..])
    else (props[i := props[i].(health := health)], colliders)
  }

  /** Damage keeps the lists aligned; the damaged prop either loses exactly
      one health or, when that leaves it at most 0, it and only it is gone. */
  lemma DamagedAligned(props: seq<Prop>, colliders: seq<Aabb>, i: int)
    requires 0 <= i < |props| && Aligned(props, colliders)
    ensures Aligned(Damaged(props, colliders, i).0, Damaged(props, colliders, i).1)
    ensures var r := Damaged(props, colliders, i).0;
            if props[i].health <= 1 then
              |r| == |props| - 1 &&
              (forall k :: 0 <= k < i ==> r[k] == props[k]) &&
              (forall k :: i <= k < |r| ==> r[k] == props[k + 1])
            else
              |r| == |props| && r[i].health == props[i].health - 1 &&
              r[i].collider == props[i].collider &&
              (forall k :: 0 <= k < |r| && k != i ==> r[k] == props[k])
  {
    var r := Damaged(props, colliders, i);
    if props[i].health <= 1 {
      forall k | 0 <= k < |r.0|
        ensures r.0[k].collider == r.1[k]
      {
        if k < i {
          assert r.0[k] == props[k] && r.1[k] == colliders[k];
        } else {
          assert r.0[k] == props[k + 1] && r.1[k] == colliders[k + 1];
        }
      }
    }
  }

  /** `damageProp(index)`. */
  method DamageProp(s: Session, index: int)
    requires 0 <= index < |s.props| && |s.props| == |s.propColliders|
    modifies s`props, s`propColliders
    ensures (s.props, s.propColliders) == Damaged(old(s.props), old(s.propColliders), index)
  {
    var prop := s.props[index];
    var health := prop.health - 1;
    s.props := s.props[index := prop.(health := health)];
    if health <= 0 {
      s.props := s.props[..index] + s.props[index + 1..];
      s.propColliders := s.propColliders[..index] + s.propColliders[index + 1..];
    }
  }

  // ---------------------------------------------------------------------
  // getPropHitIndex
  // ---------------------------------------------------------------------

  /** The first prop whose collider the segment meets, or -1. */
  function FirstPropHit(props: seq<Prop>, start: Vec3, end: Vec3): (i: int)
    ensures -1 <= i < |props|
    ensures i >= 0 ==> SegmentHitsBox(start, end, props[i].collider) &&
                       forall k :: 0 <= k < i ==> !SegmentHitsBox(start, end, props[k].collider)
    ensures i == -1 <==> forall k :: 0 <= k < |props| ==> !SegmentHitsBox(start, end, props[k].collider)
  {
    if |props| == 0 then -1
    else if SegmentHitsBox(start, end, props[0].collider) then 0
    else
      var j := FirstPropHit(props[1..], start, end);
      assert forall k :: 1 <= k < |props| ==> props[k] == props[1..][k - 1];
      if j == -1 then -1 else j + 1
  }

  /** `getPropHitIndex`: the first prop (by its own collider) that the
      segment meets, or -1 when it meets none. */
  method GetPropHitIndex(s: Session, start: Vec3, end: Vec3) returns (index: int)
    ensures index == FirstPropHit(s.props, start, end)
  {
    for i := 0 to |s.props|
      invariant forall k :: 0 <= k < i ==> !SegmentHitsBox(start, end, s.props[k].collider)
    {
      var hit := SegmentAabbIntersect(start, end, s.props[i].collider);
      if hit {
        return i;
      }
    }
    return -1;
  }
}
