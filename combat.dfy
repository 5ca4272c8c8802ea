/** Combat bookkeeping: damage to the player, the per-frame update of player
    bullets and enemy bolts, and bullet hits on enemies. Every list is walked
    from its last entry to its first and entries are removed in place, so
    removing entry i never disturbs the entries still to be visited. */
module Combat {
  import opened State
  import opened Collision
  import opened Props

  // ---------------------------------------------------------------------
  // applyPlayerDamage
  // ---------------------------------------------------------------------

  /** Shield and health after `applyPlayerDamage(amount)`: a positive
      shield absorbs up to the whole amount first, and what is left lowers
      health, which does not go below 0. */
  function AfterDamage(shield: real, health: real, amount: real): (real, real)
  {
    var absorbed := if shield > 0.0 then MinReal(shield, amount) else 0.0;
    var remaining := amount - absorbed;
    (shield - absorbed, if remaining > 0.0 then MaxReal(0.0, health - remaining) else health)
  }

  /** For a non-negative amount the shield absorbs min(shield, amount) and
      stays non-negative, health drops by the rest but not below 0 and never
      rises, and the two together lose at most the amount (exactly the amount
      while health covers the rest). */
  lemma DamageAccounting(shield: real, health: real, amount: real)
    requires 0.0 <= shield && 0.0 <= health && 0.0 <= amount
    ensures var r := AfterDamage(shield, health, amount);
            var rest := amount - MinReal(shield, amount);
            r.0 == shield - MinReal(shield, amount) && 0.0 <= r.0 <= shield &&
            r.1 == MaxReal(0.0, health - rest) && 0.0 <= r.1 <= health &&
            shield + health - (r.0 + r.1) <= amount &&
            (rest <= health ==> shield + health - (r.0 + r.1) == amount) &&
            (amount <= shield ==> r.1 == health)
  {
  }

  /** `applyPlayerDamage(amount)`. */
  method ApplyPlayerDamage(s: Session, amount: real)
    modifies s`shield, s`health
    ensures (s.shield, s.health) == AfterDamage(old(s.shield), old(s.health), amount)
  {
    var remaining := amount;
    if s.shield > 0.0 {
      var absorbed := MinReal(s.shield, remaining);
      s.shield := s.shield - absorbed;
      remaining := remaining - absorbed;
    }
    if remaining > 0.0 {
      s.health := MaxReal(0.0, s.health - remaining);
    }
  }

  // ---------------------------------------------------------------------
  // Moving a bullet or bolt
  // ---------------------------------------------------------------------

  /** `p.addScaledVector(v, d)`. */
  function AddScaled(p: Vec3, v: Vec3, d: real): Vec3
  {
    Vec3(p.x + v.x * d, p.y + v.y * d, p.z + v.z * d)
  }

  /** A bullet one frame later: the old position becomes the previous one. */
  function Advanced(b: Bullet, delta: real): (r: Bullet)
    ensures r.prev == b.pos && r.velocity == b.velocity && r.age == b.age + delta
  {
    Bullet(AddScaled(b.pos, b.velocity, delta), b.pos, b.velocity, b.age + delta)
  }

  /** Whether `s` keeps the order of a subset of the entries of `t`. */
  predicate Subsequence<T(==)>(s: seq<T>, t: seq<T>)
    decreases |t|
  {
    |s| == 0 ||
    (|t| > 0 &&
     ((s[|s| - 1] == t[|t| - 1] && Subsequence(s[..|s| - 1], t[..|t| - 1])) ||
      Subsequence(s, t[..|t| - 1])))
  }

  /** Appending to the longer sequence, and to the shorter one if wanted,
      keeps a subsequence. */
  lemma SubsequenceExtend<T>(s: seq<T>, t: seq<T>, x: T, keep: bool)
    requires Subsequence(s, t)
    ensures Subsequence(s + (if keep then [x] else []), t + [x])
  {
    var t' := t + [x];
    assert t'[..|t'| - 1] == t;
    if keep {
      var s' := s + [x];
      assert s'[..|s'| - 1] == s;
    } else {
      assert s + [] == s;
    }
  }

  // ---------------------------------------------------------------------
  // updateBullets
  // ---------------------------------------------------------------------

  /** Bullets, props and prop colliders after a frame. */
  datatype BulletFrame = BulletFrame(bullets: seq<Bullet>, props: seq<Prop>, colliders: seq<Aabb>)

  /** The effect of one advanced bullet: whether it survives, and the props. */
  function BulletStep(b: Bullet, props: seq<Prop>, colliders: seq<Aabb>,
                      walls: seq<Aabb>, doors: seq<Aabb>): (r: (bool, seq<Prop>, seq<Aabb>))
    requires |props| == |colliders|
    ensures |r.1| == |r.2|
  {
    var h := FirstPropHit(props, b.prev, b.pos);
    if h != -1 then
      var d := Damaged(props, colliders, h);
      (false, d.0, d.1)
    else
      (!(b.age > 2.5 || InsideAny(walls + colliders + doors, b.pos)), props, colliders)
  }

  /** `updateBullets(delta)` on the bullets `bs`: the last bullet is handled
      first, then the others with the props it left. */
  function BulletsAfter(bs: seq<Bullet>, props: seq<Prop>, colliders: seq<Aabb>,
                        walls: seq<Aabb>, doors: seq<Aabb>, delta: real): (r: BulletFrame)
    requires |props| == |colliders|
    ensures |r.props| == |r.colliders|
    decreases |bs|
  {
    if |bs| == 0 then BulletFrame([], props, colliders)
    else
      var b := Advanced(bs[|bs| - 1], delta);
      var st := BulletStep(b, props, colliders, walls, doors);
      var rest := BulletsAfter(bs[..|bs| - 1], st.1, st.2, walls, doors, delta);
      rest.(bullets := rest.bullets + if st.0 then [b] else [])
  }

  /** `updateBullets(delta)`. */
  method UpdateBullets(s: Session, delta: real)
    requires |s.props| == |s.propColliders|
    modifies s`bullets, s`props, s`propColliders
    ensures BulletFrame(s.bullets, s.props, s.propColliders) ==
            BulletsAfter(old(s.bullets), old(s.props), old(s.propColliders), s.wallAabbs, s.doorColliders, delta)
  {
    ghost var b0 := s.bullets;
    ghost var walls, doors := s.wallAabbs, s.doorColliders;
    ghost var final := BulletsAfter(s.bullets, s.props, s.propColliders, walls, doors, delta);
    var bullets := s.bullets;
    var i := |bullets|;
    assert b0[..i] == b0 && bullets[i..] == [];
    assert final.bullets + [] == final.bullets;
    while i > 0
      invariant 0 <= i <= |bullets| && i <= |b0| && |s.props| == |s.propColliders|
      invariant bullets[..i] == b0[..i]
      invariant BulletsResume(b0, i, s.props, s.propColliders, walls, doors, delta, bullets[i..]) == final
      decreases i
    {
      var idx := i - 1;
      ghost var tail := bullets[i..];
      ghost var props, colliders := s.props, s.propColliders;
      assert bullets[idx] == b0[..i][idx];
      var bullet := Advanced(bullets[idx], delta);
      ghost var st := BulletStep(bullet, props, colliders, walls, doors);
      ghost var before := bullets;
      var keep := StepBullet(s, bullet);
      assert keep == st.0 && s.props == st.1 && s.propColliders == st.2;
      if keep {
        bullets := bullets[idx := bullet];
        ReplacedAt(before, idx, bullet);
      } else {
        bullets := bullets[..idx] + bullets[idx + 1..];
        RemovedAt(before, idx);
      }
      assert bullets[idx..] == (if st.0 then [bullet] else []) + tail;
      assert before[..i][..idx] == before[..idx] && b0[..i][..idx] == b0[..idx];
      BulletsAfterStep(b0, i, props, colliders, walls, doors, delta, tail, bullet, st);
      i := idx;
    }
    assert bullets[0..] == bullets;
    s.bullets := bullets;
  }

  /** The body of the loop of `updateBullets` for one advanced bullet:
      a prop in its path takes the hit and the bullet is spent; otherwise it
      is dropped when too old or inside an obstacle. */
  method StepBullet(s: Session, bullet: Bullet) returns (keep: bool)
    requires |s.props| == |s.propColliders|
    modifies s`props, s`propColliders
    ensures (keep, s.props, s.propColliders) ==
            BulletStep(bullet, old(s.props), old(s.propColliders), s.wallAabbs, s.doorColliders)
  {
    var hit := GetPropHitIndex(s, bullet.prev, bullet.pos);
    if hit != -1 {
      DamageProp(s, hit);
      keep := false;
    } else {
      var inside := IsPointInsideObstacle(s, bullet.pos);
      keep := !(bullet.age > 2.5 || inside);
    }
  }

  lemma RemovedAt<T>(s: seq<T>, i: int)
    requires 0 <= i < |s|
    ensures (s[..i] + s[i + 1..])[..i] == s[..i] && (s[..i] + s[i + 1..])[i..] == s[i + 1..]
  {
  }

  lemma ReplacedAt<T>(s: seq<T>, i: int, x: T)
    requires 0 <= i < |s|
    ensures s[i := x][..i] == s[..i] && s[i := x][i..] == [x] + s[i + 1..]
  {
  }

  /** The outcome of `updateBullets` once the bullets from i on are done and
      `tail` is what is left of them. */
  function BulletsResume(bs: seq<Bullet>, i: int, props: seq<Prop>, colliders: seq<Aabb>,
                         walls: seq<Aabb>, doors: seq<Aabb>, delta: real, tail: seq<Bullet>): BulletFrame
    requires 0 <= i <= |bs| && |props| == |colliders|
  {
    var r := BulletsAfter(bs[..i], props, colliders, walls, doors, delta);
    r.(bullets := r.bullets + tail)
  }

  /** Handling bullet i - 1, advanced to `b` with outcome `st`, moves the
      loop of `UpdateBullets` on by one. */
  lemma BulletsAfterStep(bs: seq<Bullet>, i: int, props: seq<Prop>, colliders: seq<Aabb>,
                         walls: seq<Aabb>, doors: seq<Aabb>, delta: real, tail: seq<Bullet>,
                         b: Bullet, st: (bool, seq<Prop>, seq<Aabb>))
    requires 0 < i <= |bs| && |props| == |colliders|
    requires b == Advanced(bs[i - 1], delta) && st == BulletStep(b, props, colliders, walls, doors)
    ensures BulletsResume(bs, i, props, colliders, walls, doors, delta, tail) ==
            BulletsResume(bs, i - 1, st.1, st.2, walls, doors, delta, (if st.0 then [b] else []) + tail)
  {
    var upto := bs[..i];
    assert upto[..i - 1] == bs[..i - 1] && upto[i - 1] == bs[i - 1];
    var r := BulletsAfter(bs[..i - 1], st.1, st.2, walls, doors, delta);
    var kept := if st.0 then [b] else [];
    assert r.bullets + kept + tail == r.bullets + (kept + tail);
  }

  /** The bullets advanced by one frame, in order. */
  function AdvancedAll(bs: seq<Bullet>, delta: real): (r: seq<Bullet>)
    ensures |r| == |bs|
  {
    if |bs| == 0 then [] else AdvancedAll(bs[..|bs| - 1], delta) + [Advanced(bs[|bs| - 1], delta)]
  }

  /** The survivors are advanced bullets, in their original order. */
  lemma {:induction false} BulletsAfterOrder(bs: seq<Bullet>, props: seq<Prop>, colliders: seq<Aabb>,
                                             walls: seq<Aabb>, doors: seq<Aabb>, delta: real)
    requires |props| == |colliders|
    ensures Subsequence(BulletsAfter(bs, props, colliders, walls, doors, delta).bullets, AdvancedAll(bs, delta))
    decreases |bs|
  {
    if |bs| > 0 {
      var b := Advanced(bs[|bs| - 1], delta);
      var st := BulletStep(b, props, colliders, walls, doors);
      BulletsAfterOrder(bs[..|bs| - 1], st.1, st.2, walls, doors, delta);
      var rest := BulletsAfter(bs[..|bs| - 1], st.1, st.2, walls, doors, delta);
      SubsequenceExtend(rest.bullets, AdvancedAll(bs[..|bs| - 1], delta), b, st.0);
    }
  }

  /** No bullet is older than 2.5. */
  predicate WithinLifetime(bs: seq<Bullet>)
  {
    forall k :: 0 <= k < |bs| ==> bs[k].age <= 2.5
  }

  /** No survivor is older than 2.5. */
  lemma {:induction false} BulletsAfterAges(bs: seq<Bullet>, props: seq<Prop>, colliders: seq<Aabb>,
                                            walls: seq<Aabb>, doors: seq<Aabb>, delta: real)
    requires |props| == |colliders|
    ensures WithinLifetime(BulletsAfter(bs, props, colliders, walls, doors, delta).bullets)
    decreases |bs|
  {
    if |bs| > 0 {
      var b := Advanced(bs[|bs| - 1], delta);
      var st := BulletStep(b, props, colliders, walls, doors);
      BulletStepSurvivor(b, props, colliders, walls, doors);
      BulletsAfterAges(bs[..|bs| - 1], st.1, st.2, walls, doors, delta);
      var rest := BulletsAfter(bs[..|bs| - 1], st.1, st.2, walls, doors, delta).bullets;
      var r := rest + (if st.0 then [b] else []);
      assert BulletsAfter(bs, props, colliders, walls, doors, delta).bullets == r;
      forall k | 0 <= k < |r|
        ensures r[k].age <= 2.5
      {
        if k < |rest| {
          assert r[k] == rest[k];
        }
      }
    }
  }

  /** Bullets never add props. */
  lemma {:induction false} BulletsAfterPropCount(bs: seq<Bullet>, props: seq<Prop>, colliders: seq<Aabb>,
                                                 walls: seq<Aabb>, doors: seq<Aabb>, delta: real)
    requires |props| == |colliders|
    ensures |BulletsAfter(bs, props, colliders, walls, doors, delta).props| <= |props|
    decreases |bs|
  {
    if |bs| > 0 {
      var b := Advanced(bs[|bs| - 1], delta);
      var st := BulletStep(b, props, colliders, walls, doors);
      BulletStepSurvivor(b, props, colliders, walls, doors);
      BulletsAfterPropCount(bs[..|bs| - 1], st.1, st.2, walls, doors, delta);
    }
  }

  /** A bullet survives its step only when it is at most 2.5 old; no step
      adds props. */
  lemma BulletStepSurvivor(b: Bullet, props: seq<Prop>, colliders: seq<Aabb>, walls: seq<Aabb>, doors: seq<Aabb>)
    requires |props| == |colliders|
    ensures var st := BulletStep(b, props, colliders, walls, doors);
            (st.0 ==> b.age <= 2.5) && |st.1| <= |props|
  {
  }

  /** The bullets that survive when no prop is in the way: exactly those at
      most 2.5 old that are not inside a wall or door, in order. */
  function Unexpired(bs: seq<Bullet>, walls: seq<Aabb>, doors: seq<Aabb>): seq<Bullet>
  {
    if |bs| == 0 then []
    else
      var b := bs[|bs| - 1];
      Unexpired(bs[..|bs| - 1], walls, doors) +
      if b.age > 2.5 || InsideAny(walls + doors, b.pos) then [] else [b]
  }

  /** Without props, `updateBullets` is a filter: the advanced bullets that
      are at most 2.5 old and not inside an obstacle survive, in order. */
  lemma {:induction false} BulletsAfterWithoutProps(bs: seq<Bullet>, walls: seq<Aabb>, doors: seq<Aabb>, delta: real)
    ensures BulletsAfter(bs, [], [], walls, doors, delta) ==
            BulletFrame(Unexpired(AdvancedAll(bs, delta), walls, doors), [], [])
    decreases |bs|
  {
    if |bs| > 0 {
      BulletsAfterWithoutProps(bs[..|bs| - 1], walls, doors, delta);
      var a := AdvancedAll(bs, delta);
      assert a[..|a| - 1] == AdvancedAll(bs[..|bs| - 1], delta);
      assert walls + [] + doors == walls + doors;
    }
  }

  /** The total health of the props. */
  function TotalHealth(props: seq<Prop>): int
  {
    if |props| == 0 then 0 else TotalHealth(props[..|props| - 1]) + props[|props| - 1].health
  }

  predicate AllStanding(props: seq<Prop>)
  {
    forall k :: 0 <= k < |props| ==> props[k].health >= 1
  }

  lemma {:induction false} TotalHealthAppend(a: seq<Prop>, b: seq<Prop>)
    ensures TotalHealth(a + b) == TotalHealth(a) + TotalHealth(b)
    decreases |b|
  {
    if |b| == 0 {
      assert a + b == a;
    } else {
      var ab := a + b;
      assert ab[..|ab| - 1] == a + b[..|b| - 1] && ab[|ab| - 1] == b[|b| - 1];
      TotalHealthAppend(a, b[..|b| - 1]);
    }
  }

  /** One point of damage to a standing prop lowers the total by exactly one
      and leaves every prop standing. */
  lemma DamagedTotal(props: seq<Prop>, colliders: seq<Aabb>, i: int)
    requires 0 <= i < |props| && |props| == |colliders| && AllStanding(props)
    ensures TotalHealth(Damaged(props, colliders, i).0) == TotalHealth(props) - 1
    ensures AllStanding(Damaged(props, colliders, i).0)
  {
    var r := Damaged(props, colliders, i).0;
    assert props == props[..i] + [props[i]] + props[i + 1..];
    TotalHealthAppend(props[..i] + [props[i]], props[i + 1..]);
    TotalHealthAppend(props[..i], [props[i]]);
    assert TotalHealth([props[i]]) == props[i].health by {
      assert [props[i]][..0] == [];
    }
    if props[i].health > 1 {
      var q := props[i].(health := props[i].health - 1);
      assert r == props[..i] + [q] + props[i + 1..];
      TotalHealthAppend(props[..i] + [q], props[i + 1..]);
      TotalHealthAppend(props[..i], [q]);
      assert TotalHealth([q]) == q.health by {
        assert [q][..0] == [];
      }
    } else {
      TotalHealthAppend(props[..i], props[i + 1..]);
    }
  }

  /** Each bullet damages at most one prop, once, and is removed when it
      does: the health the props lose plus the surviving bullets is at most
      the number of bullets. */
  lemma {:induction false} BulletsAfterDamageOnce(bs: seq<Bullet>, props: seq<Prop>, colliders: seq<Aabb>,
                                                  walls: seq<Aabb>, doors: seq<Aabb>, delta: real)
    requires |props| == |colliders| && AllStanding(props)
    ensures var r := BulletsAfter(bs, props, colliders, walls, doors, delta);
            AllStanding(r.props) && TotalHealth(r.props) <= TotalHealth(props) &&
            TotalHealth(props) - TotalHealth(r.props) + |r.bullets| <= |bs|
    decreases |bs|
  {
    if |bs| > 0 {
      var b := Advanced(bs[|bs| - 1], delta);
      var st := BulletStep(b, props, colliders, walls, doors);
      var h := FirstPropHit(props, b.prev, b.pos);
      if h != -1 {
        DamagedTotal(props, colliders, h);
      }
      BulletsAfterDamageOnce(bs[..|bs| - 1], st.1, st.2, walls, doors, delta);
    }
  }

  // ---------------------------------------------------------------------
  // updateEnemyProjectiles
  // ---------------------------------------------------------------------

  /** The radius of the player's body for enemy bolts. */
  const PlayerRadius: real := 0.9
  const BoltDamage: real := 20.0

  function AdvancedBolt(p: EnemyProjectile, delta: real): (r: EnemyProjectile)
    ensures r.prev == p.pos && r.velocity == p.velocity && r.age == p.age + delta
  {
    EnemyProjectile(AddScaled(p.pos, p.velocity, delta), p.pos, p.velocity, p.age + delta)
  }

  /** Bolts, shield and health after a frame. */
  datatype BoltFrame = BoltFrame(bolts: seq<EnemyProjectile>, shield: real, health: real)

  /** `updateEnemyProjectiles(delta)` with the camera at `camera`: the last
      bolt is handled first. A bolt that meets a collider or is older than 4
      is removed; otherwise one that meets the player deals 20 damage and is
      removed. */
  function BoltsAfter(ps: seq<EnemyProjectile>, colliders: seq<Aabb>, camera: Vec3,
                      shield: real, health: real, delta: real): BoltFrame
    decreases |ps|
  {
    if |ps| == 0 then BoltFrame([], shield, health)
    else
      var p := AdvancedBolt(ps[|ps| - 1], delta);
      if SegmentHitsAny(colliders, p.prev, p.pos) || p.age > 4.0 then
        BoltsAfter(ps[..|ps| - 1], colliders, camera, shield, health, delta)
      else if SegmentHitsSphere(p.prev, p.pos, camera, PlayerRadius) then
        var v := AfterDamage(shield, health, BoltDamage);
        BoltsAfter(ps[..|ps| - 1], colliders, camera, v.0, v.1, delta)
      else
        var rest := BoltsAfter(ps[..|ps| - 1], colliders, camera, shield, health, delta);
        rest.(bolts := rest.bolts + [p])
  }

  /** `wallAabbs.concat(propColliders, doorColliders).some(...)`. */
  method SegmentHitsAnyCollider(colliders: seq<Aabb>, start: Vec3, end: Vec3) returns (hit: bool)
    ensures hit == SegmentHitsAny(colliders, start, end)
  {
    for i := 0 to |colliders|
      invariant forall k :: 0 <= k < i ==> !SegmentHitsBox(start, end, colliders[k])
    {
      hit := SegmentAabbIntersect(start, end, colliders[i]);
      if hit {
        return;
      }
    }
    return false;
  }

  /** `updateEnemyProjectiles(delta)`; with no camera nothing changes. */
  method UpdateEnemyProjectiles(s: Session, delta: real)
    modifies s`enemyProjectiles, s`shield, s`health
    ensures old(s.camera).None? ==> unchanged(s`enemyProjectiles, s`shield, s`health)
    ensures old(s.camera).Some? ==>
              BoltFrame(s.enemyProjectiles, s.shield, s.health) ==
              BoltsAfter(old(s.enemyProjectiles), Colliders(s), old(s.camera).value,
                         old(s.shield), old(s.health), delta)
  {
    if s.camera.None? {
      return;
    }
    var camera := s.camera.value;
    var colliders := s.wallAabbs + s.propColliders + s.doorColliders;
    ghost var p0 := s.enemyProjectiles;
    ghost var final := BoltsAfter(p0, colliders, camera, s.shield, s.health, delta);
    var bolts := s.enemyProjectiles;
    var i := |bolts|;
    assert p0[..i] == p0 && bolts[i..] == [];
    assert final.bolts + [] == final.bolts;
    while i > 0
      invariant 0 <= i <= |bolts| && i <= |p0|
      invariant bolts[..i] == p0[..i]
      invariant BoltsResume(p0, i, colliders, camera, s.shield, s.health, delta, bolts[i..]) == final
      decreases i
    {
      var idx := i - 1;
      ghost var tail := bolts[i..];
      ghost var shield, health := s.shield, s.health;
      assert bolts[idx] == p0[..i][idx];
      var projectile := AdvancedBolt(bolts[idx], delta);
      ghost var before := bolts;
      var hitObstacle := SegmentHitsAnyCollider(colliders, projectile.prev, projectile.pos);
      if hitObstacle || projectile.age > 4.0 {
        bolts := bolts[..idx] + bolts[idx + 1..];
        RemovedAt(before, idx);
      } else if SegmentHitsSphere(projectile.prev, projectile.pos, camera, PlayerRadius) {
        ApplyPlayerDamage(s, BoltDamage);
        bolts := bolts[..idx] + bolts[idx + 1..];
        RemovedAt(before, idx);
      } else {
        bolts := bolts[idx := projectile];
        ReplacedAt(before, idx, projectile);
      }
      assert before[..i][..idx] == before[..idx] && p0[..i][..idx] == p0[..idx];
      BoltsAfterStep(p0, i, colliders, camera, shield, health, delta, tail);
      i := idx;
    }
    assert bolts[0..] == bolts;
    s.enemyProjectiles := bolts;
  }

  /** The outcome of `updateEnemyProjectiles` once the bolts from i on are
      done and `tail` is what is left of them. */
  function BoltsResume(ps: seq<EnemyProjectile>, i: int, colliders: seq<Aabb>, camera: Vec3,
                       shield: real, health: real, delta: real, tail: seq<EnemyProjectile>): BoltFrame
    requires 0 <= i <= |ps|
  {
    var r := BoltsAfter(ps[..i], colliders, camera, shield, health, delta);
    r.(bolts := r.bolts + tail)
  }

  /** Handling bolt i - 1 moves the loop of `UpdateEnemyProjectiles` on by one. */
  lemma BoltsAfterStep(ps: seq<EnemyProjectile>, i: int, colliders: seq<Aabb>, camera: Vec3,
                       shield: real, health: real, delta: real, tail: seq<EnemyProjectile>)
    requires 0 < i <= |ps|
    ensures var p := AdvancedBolt(ps[i - 1], delta);
            var v := AfterDamage(shield, health, BoltDamage);
            BoltsResume(ps, i, colliders, camera, shield, health, delta, tail) ==
            if SegmentHitsAny(colliders, p.prev, p.pos) || p.age > 4.0 then
              BoltsResume(ps, i - 1, colliders, camera, shield, health, delta, tail)
            else if SegmentHitsSphere(p.prev, p.pos, camera, PlayerRadius) then
              BoltsResume(ps, i - 1, colliders, camera, v.0, v.1, delta, tail)
            else
              BoltsResume(ps, i - 1, colliders, camera, shield, health, delta, [p] + tail)
  {
    assert ps[..i][..i - 1] == ps[..i - 1];
    var p := AdvancedBolt(ps[i - 1], delta);
    var r := BoltsAfter(ps[..i - 1], colliders, camera, shield, health, delta);
    assert r.bolts + [p] + tail == r.bolts + ([p] + tail);
  }

  /** Bolts never heal: shield and health only fall, stay non-negative, and
      together lose at most 20 per removed bolt; survivors are at most 4 old. */
  lemma {:induction false} BoltsAfterDamage(ps: seq<EnemyProjectile>, colliders: seq<Aabb>, camera: Vec3,
                                            shield: real, health: real, delta: real)
    requires 0.0 <= shield && 0.0 <= health
    ensures var r := BoltsAfter(ps, colliders, camera, shield, health, delta);
            0.0 <= r.shield <= shield && 0.0 <= r.health <= health &&
            shield + health - (r.shield + r.health) <= BoltDamage * ((|ps| - |r.bolts|) as real) &&
            |r.bolts| <= |ps| &&
            forall k :: 0 <= k < |r.bolts| ==> r.bolts[k].age <= 4.0
    decreases |ps|
  {
    if |ps| > 0 {
      var p := AdvancedBolt(ps[|ps| - 1], delta);
      var init := ps[..|ps| - 1];
      if SegmentHitsAny(colliders, p.prev, p.pos) || p.age > 4.0 {
        BoltsAfterDamage(init, colliders, camera, shield, health, delta);
      } else if SegmentHitsSphere(p.prev, p.pos, camera, PlayerRadius) {
        var v := AfterDamage(shield, health, BoltDamage);
        DamageAccounting(shield, health, BoltDamage);
        BoltsAfterDamage(init, colliders, camera, v.0, v.1, delta);
      } else {
        BoltsAfterDamage(init, colliders, camera, shield, health, delta);
      }
    }
  }

  // ---------------------------------------------------------------------
  // handleBulletHits
  // ---------------------------------------------------------------------

  /** What the ray of a bullet's last step meets on an enemy's model. */
  datatype HitKind = Miss | Body | Head

  /** Below this travelled distance a bullet is skipped. */
  const MinTravel: real := 0.0001

  /** Whether bullet b hits enemy e this frame: it is at least 0.02 old, it
      moved more than 0.0001 since the last frame, and its ray meets the
      enemy. `hit` stands for the ray cast against the enemy's model. */
  predicate Strikes(b: Bullet, e: Enemy, hit: (Bullet, Enemy) -> HitKind)
  {
    !(b.age < 0.02) && DistSq(b.pos, b.prev) > MinTravel * MinTravel && hit(b, e) != Miss
  }

  /** The last bullet that strikes the enemy, or -1. */
  function LastStrike(bs: seq<Bullet>, e: Enemy, hit: (Bullet, Enemy) -> HitKind): (j: int)
    ensures -1 <= j < |bs|
    decreases |bs|
  {
    if |bs| == 0 then -1
    else if Strikes(bs[|bs| - 1], e, hit) then |bs| - 1
    else LastStrike(bs[..|bs| - 1], e, hit)
  }

  /** `LastStrike` finds a striking bullet with none after it, and -1
      exactly when no bullet strikes. */
  lemma {:induction false} LastStrikeSpec(bs: seq<Bullet>, e: Enemy, hit: (Bullet, Enemy) -> HitKind)
    ensures var j := LastStrike(bs, e, hit);
            (j >= 0 ==> Strikes(bs[j], e, hit) && forall k :: j < k < |bs| ==> !Strikes(bs[k], e, hit)) &&
            (j == -1 <==> forall k :: 0 <= k < |bs| ==> !Strikes(bs[k], e, hit))
    decreases |bs|
  {
    if |bs| > 0 && !Strikes(bs[|bs| - 1], e, hit) {
      var init := bs[..|bs| - 1];
      LastStrikeSpec(init, e, hit);
      assert forall k :: 0 <= k < |init| ==> init[k] == bs[k];
    }
  }

  function StrikeDamage(kind: HitKind): int
  {
    if kind == Head then HeadshotDamage else BulletDamage
  }

  /** The outcome for one enemy: the enemy after the hit, the bullets left,
      and whether the enemy died. */
  datatype Strike = Strike(enemy: Enemy, bullets: seq<Bullet>, killed: bool)

  function StrikeEnemy(e: Enemy, bs: seq<Bullet>, hit: (Bullet, Enemy) -> HitKind): Strike
  {
    var j := LastStrike(bs, e, hit);
    if j == -1 then Strike(e, bs, false)
    else
      var e' := e.(health := e.health - StrikeDamage(hit(bs[j], e)), hitFlashTimer := 0.15);
      Strike(e', bs[..j] + bs[j + 1..], e'.health <= 0)
  }

  /** An enemy hit by a bullet loses 60, or 120 for a head hit, and that one
      bullet is removed; it dies exactly when its health is then at most 0.
      An enemy no bullet strikes is left as it is, with every bullet. */
  lemma StrikeEnemyEffect(e: Enemy, bs: seq<Bullet>, hit: (Bullet, Enemy) -> HitKind)
    ensures var r := StrikeEnemy(e, bs, hit);
            var j := LastStrike(bs, e, hit);
            (j == -1 ==> r == Strike(e, bs, false)) &&
            (j != -1 ==>
               r.enemy.health == e.health - (if hit(bs[j], e) == Head then 120 else 60) &&
               r.enemy.hitFlashTimer == 0.15 &&
               r.enemy == e.(health := r.enemy.health, hitFlashTimer := 0.15) &&
               (r.killed <==> r.enemy.health <= 0) &&
               r.bullets == bs[..j] + bs[j + 1..] && Strikes(bs[j], e, hit))
  {
    LastStrikeSpec(bs, e, hit);
  }

  /** A strike uses up at most one bullet, and only a struck enemy dies. */
  lemma StrikeCounts(e: Enemy, bs: seq<Bullet>, hit: (Bullet, Enemy) -> HitKind)
    ensures var r := StrikeEnemy(e, bs, hit);
            |bs| - 1 <= |r.bullets| <= |bs| && (r.killed ==> |r.bullets| == |bs| - 1)
  {
  }

  /** Enemies, bullets, remaining count and score after the hits. */
  datatype HitFrame = HitFrame(enemies: seq<Enemy>, bullets: seq<Bullet>, remaining: int, score: int)

  /** `handleBulletHits` on enemies `es`: the last enemy is handled first,
      then the others with the bullets it left. */
  function HitsAfter(es: seq<Enemy>, bs: seq<Bullet>, remaining: int, score: int,
                     hit: (Bullet, Enemy) -> HitKind): HitFrame
    decreases |es|
  {
    if |es| == 0 then HitFrame([], bs, remaining, score)
    else
      var st := StrikeEnemy(es[|es| - 1], bs, hit);
      var remaining' := if st.killed then (if remaining - 1 > 0 then remaining - 1 else 0) else remaining;
      var score' := if st.killed then score + 25 else score;
      var rest := HitsAfter(es[..|es| - 1], st.bullets, remaining', score', hit);
      rest.(enemies := rest.enemies + if st.killed then [] else [st.enemy])
  }

  /** The inner loop: the last bullet that strikes `enemy`, or -1. */
  method FindStrike(bullets: seq<Bullet>, enemy: Enemy, hit: (Bullet, Enemy) -> HitKind) returns (j: int)
    ensures j == LastStrike(bullets, enemy, hit)
  {
    LastStrikeSpec(bullets, enemy, hit);
    j := |bullets| - 1;
    while j >= 0
      invariant -1 <= j < |bullets|
      invariant forall k :: j < k < |bullets| ==> !Strikes(bullets[k], enemy, hit)
      decreases j + 1
    {
      var bullet := bullets[j];
      if !(bullet.age < 0.02) {
        var d := Sub(bullet.pos, bullet.prev);
        if Dot(d, d) > MinTravel * MinTravel && hit(bullet, enemy) != Miss {
          return;
        }
      }
      j := j - 1;
    }
  }

  /** `handleBulletHits`. */
  method HandleBulletHits(s: Session, hit: (Bullet, Enemy) -> HitKind)
    modifies s`enemies, s`bullets, s`remainingEnemies, s`score
    ensures HitFrame(s.enemies, s.bullets, s.remainingEnemies, s.score) ==
            HitsAfter(old(s.enemies), old(s.bullets), old(s.remainingEnemies), old(s.score), hit)
  {
    ghost var e0 := s.enemies;
    ghost var final := HitsAfter(s.enemies, s.bullets, s.remainingEnemies, s.score, hit);
    var enemies, bullets, remaining, score := s.enemies, s.bullets, s.remainingEnemies, s.score;
    var i := |enemies|;
    assert e0[..i] == e0 && enemies[i..] == [];
    assert HitsAfter(e0[..i], bullets, remaining, score, hit).enemies + [] ==
           HitsAfter(e0[..i], bullets, remaining, score, hit).enemies;
    while i > 0
      invariant 0 <= i <= |enemies| && i <= |e0|
      invariant enemies[..i] == e0[..i]
      invariant HitsResume(e0, i, bullets, remaining, score, hit, enemies[i..]) == final
      decreases i
    {
      var idx := i - 1;
      ghost var tail := enemies[i..];
      ghost var bs, rem, sc := bullets, remaining, score;
      assert enemies[idx] == e0[..i][idx];
      var enemy := enemies[idx];
      ghost var before := enemies;
      ghost var st := StrikeEnemy(enemy, bs, hit);
      var killed;
      enemy, bullets, killed := HitEnemy(enemy, bullets, hit);
      assert enemy == st.enemy && bullets == st.bullets && killed == st.killed;
      if killed {
        enemies := enemies[..idx] + enemies[idx + 1..];
        RemovedAt(before, idx);
        remaining := if remaining - 1 > 0 then remaining - 1 else 0;
        score := score + 25;
      } else {
        enemies := enemies[idx := enemy];
        ReplacedAt(before, idx, enemy);
      }
      assert enemies[idx..] == (if st.killed then [] else [st.enemy]) + tail;
      assert before[..i][..idx] == before[..idx] && e0[..i][..idx] == e0[..idx];
      HitsAfterStep(e0, i, bs, rem, sc, hit, tail, st);
      i := idx;
    }
    assert e0[..0] == [] && enemies[0..] == enemies;
    s.enemies, s.bullets, s.remainingEnemies, s.score := enemies, bullets, remaining, score;
  }

  /** One enemy of `handleBulletHits`: the last bullet that strikes it is
      used up and deals its damage. */
  method HitEnemy(enemy: Enemy, bullets: seq<Bullet>, hit: (Bullet, Enemy) -> HitKind)
    returns (enemy': Enemy, bullets': seq<Bullet>, killed: bool)
    ensures Strike(enemy', bullets', killed) == StrikeEnemy(enemy, bullets, hit)
  {
    var j := FindStrike(bullets, enemy, hit);
    if j == -1 {
      return enemy, bullets, false;
    }
    var kind := hit(bullets[j], enemy);
    enemy' := enemy.(health := enemy.health - (if kind == Head then HeadshotDamage else BulletDamage),
                     hitFlashTimer := 0.15);
    bullets' := bullets[..j] + bullets[j + 1..];
    killed := enemy'.health <= 0;
  }

  /** The outcome of `handleBulletHits` once the enemies from i on are done
      and `tail` is what is left of them. */
  function HitsResume(es: seq<Enemy>, i: int, bs: seq<Bullet>, remaining: int, score: int,
                      hit: (Bullet, Enemy) -> HitKind, tail: seq<Enemy>): HitFrame
    requires 0 <= i <= |es|
  {
    var r := HitsAfter(es[..i], bs, remaining, score, hit);
    r.(enemies := r.enemies + tail)
  }

  /** Handling enemy i - 1, with outcome `st`, moves the loop of
      `HandleBulletHits` on by one. */
  lemma HitsAfterStep(es: seq<Enemy>, i: int, bs: seq<Bullet>, remaining: int, score: int,
                      hit: (Bullet, Enemy) -> HitKind, tail: seq<Enemy>, st: Strike)
    requires 0 < i <= |es| && st == StrikeEnemy(es[i - 1], bs, hit)
    ensures HitsResume(es, i, bs, remaining, score, hit, tail) ==
            HitsResume(es, i - 1, st.bullets,
                       if st.killed then (if remaining - 1 > 0 then remaining - 1 else 0) else remaining,
                       if st.killed then score + 25 else score, hit,
                       (if st.killed then [] else [st.enemy]) + tail)
  {
    var upto := es[..i];
    assert upto[..i - 1] == es[..i - 1] && upto[i - 1] == es[i - 1];
    var remaining' := if st.killed then (if remaining - 1 > 0 then remaining - 1 else 0) else remaining;
    var score' := if st.killed then score + 25 else score;
    var r := HitsAfter(es[..i - 1], st.bullets, remaining', score', hit);
    var kept := if st.killed then [] else [st.enemy];
    assert r.enemies + kept + tail == r.enemies + (kept + tail);
  }

  /** Each kill adds 25 to the score, each enemy takes at most one bullet,
      and a remaining count that matched the enemy list still matches it. */
  lemma {:induction false} HitsAfterBookkeeping(es: seq<Enemy>, bs: seq<Bullet>, remaining: int, score: int,
                                                hit: (Bullet, Enemy) -> HitKind, extra: nat)
    requires remaining == |es| + extra
    ensures var r := HitsAfter(es, bs, remaining, score, hit);
            |r.enemies| <= |es| &&
            r.score == score + 25 * (|es| - |r.enemies|) &&
            r.remaining == |r.enemies| + extra &&
            |bs| - |es| <= |r.bullets| <= |bs|
    decreases |es|
  {
    if |es| > 0 {
      var st := StrikeEnemy(es[|es| - 1], bs, hit);
      StrikeCounts(es[|es| - 1], bs, hit);
      var init := es[..|es| - 1];
      if st.killed {
        HitsAfterBookkeeping(init, st.bullets, remaining - 1, score + 25, hit, extra);
      } else {
        HitsAfterBookkeeping(init, st.bullets, remaining, score, hit, extra + 1);
      }
    }
  }

  /** The bullets younger than 0.02, in order. */
  function Young(bs: seq<Bullet>): seq<Bullet>
  {
    if |bs| == 0 then [] else Young(bs[..|bs| - 1]) + if bs[|bs| - 1].age < 0.02 then [bs[|bs| - 1]] else []
  }

  lemma {:induction false} YoungAppend(a: seq<Bullet>, b: seq<Bullet>)
    ensures Young(a + b) == Young(a) + Young(b)
    decreases |b|
  {
    if |b| == 0 {
      assert a + b == a;
    } else {
      var ab := a + b;
      assert ab[..|ab| - 1] == a + b[..|b| - 1] && ab[|ab| - 1] == b[|b| - 1];
      YoungAppend(a, b[..|b| - 1]);
    }
  }

  /** Bullets younger than 0.02 are never used up. */
  lemma {:induction false} HitsAfterKeepsYoung(es: seq<Enemy>, bs: seq<Bullet>, remaining: int, score: int,
                                               hit: (Bullet, Enemy) -> HitKind)
    ensures Young(HitsAfter(es, bs, remaining, score, hit).bullets) == Young(bs)
    decreases |es|
  {
    if |es| > 0 {
      var st := StrikeEnemy(es[|es| - 1], bs, hit);
      StrikeKeepsYoung(es[|es| - 1], bs, hit);
      var remaining' := if st.killed then (if remaining - 1 > 0 then remaining - 1 else 0) else remaining;
      var score' := if st.killed then score + 25 else score;
      HitsAfterKeepsYoung(es[..|es| - 1], st.bullets, remaining', score', hit);
    }
  }

  /** The bullet an enemy uses up is never younger than 0.02. */
  lemma StrikeKeepsYoung(e: Enemy, bs: seq<Bullet>, hit: (Bullet, Enemy) -> HitKind)
    ensures Young(StrikeEnemy(e, bs, hit).bullets) == Young(bs)
  {
    var j := LastStrike(bs, e, hit);
    if j != -1 {
      LastStrikeSpec(bs, e, hit);
      YoungRemove(bs, j);
    }
  }

  /** Removing a bullet at least 0.02 old keeps the young ones. */
  lemma YoungRemove(bs: seq<Bullet>, j: int)
    requires 0 <= j < |bs| && !(bs[j].age < 0.02)
    ensures Young(bs[..j] + bs[j + 1..]) == Young(bs)
  {
    var before, upto, after := bs[..j], bs[..j + 1], bs[j + 1..];
    assert Young(upto) == Young(before) by {
      assert upto[..j] == before;
    }
    assert bs == upto + after;
    YoungAppend(upto, after);
    YoungAppend(before, after);
  }

  // ---------------------------------------------------------------------
  // resetCombat
  // ---------------------------------------------------------------------

  /** `resetCombat`. */
  method ResetCombat(s: Session)
    modifies s`bullets, s`enemyProjectiles, s`tracers
    ensures s.bullets == [] && s.enemyProjectiles == [] && s.tracers == []
  {
    s.bullets := [];
    s.enemyProjectiles := [];
    s.tracers := [];
  }
}
