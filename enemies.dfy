/**
 * Enemies (src/game/enemies.ts): creating and spawning them, and one frame of
 * `updateEnemies`.
 *
 * A frame updates every enemy in list order.
 *  - A ranged enemy counts its shoot timer down and fires a bolt when it sees the player in
 *    range and the timer has run out.
 *  - A melee enemy runs its perception step at most every 300 ms. That step is the
 *    IDLE/PATROL/CHASE/SEARCH state machine. The enemy then acts on its state: it walks its
 *    waypoints, follows a breadth-first path to the player's cell, or heads for the place
 *    the player was last seen.
 *  - Any enemy closer than 1.2 to the player drains 30 health per second.
 *
 * Line of sight, the four candidate waypoints on a circle, a step of movement (including
 * the collision push-out) and the unit aim vector of a bolt are float geometry. They are
 * the functions of `Senses`. Distances are compared squared, which is exact over the reals.
 */
module Enemies {
  import opened State
  import opened Cells = Grid
  import opened Reachability
  import opened Pathfinding
  import Combat

  /** The float geometry a frame depends on, for the camera of that frame. */
  datatype Senses = Senses(
    sees: Vec3 -> bool,               // hasLineOfSight(from, camera)
    circle: Vec3 -> seq<Vec3>,        // the candidate waypoints at radius 3 around a centre
    move: (Vec3, Vec3, real) -> Vec3, // a step from a position toward a target, then resolveCollisions
    heading: (Vec3, Vec3) -> Vec3)    // the unit vector from an origin toward a target

  /** The inputs of one `updateEnemies(delta, time)` call: seconds, milliseconds, camera, grid. */
  datatype Frame = Frame(delta: real, time: real, camera: Vec3, grid: Grid)

  /** The cell of the player, `worldToGrid(camera.position)`. */
  function PlayerCell(f: Frame): GridPoint
  {
    WorldToGrid(f.camera)
  }

  /** Squared distance in the XZ plane. */
  function FlatDistSq(a: Vec3, b: Vec3): real
  {
    (a.x - b.x) * (a.x - b.x) + (a.z - b.z) * (a.z - b.z)
  }

  // ---------------------------------------------------------------------
  // Creating, spawning and clearing
  // ---------------------------------------------------------------------

  /** What every enemy keeps true between frames. */
  predicate Kept(e: Enemy)
  {
    0 <= e.pathIndex <= |e.path| &&
    (if e.kind == Ranged then e.shootCooldown == 1.2 && e.range == 18.0
     else e.shootCooldown == 0.0 && e.range == 2.0) &&
    0.0 <= e.shootTimer <= e.shootCooldown &&
    0 <= e.currentWaypointIndex &&
    (e.patrolWaypoints.Some? && |e.patrolWaypoints.value| > 0 ==>
       e.currentWaypointIndex < |e.patrolWaypoints.value|) &&
    0.0 <= e.searchTimer
  }

  /**
   * `createEnemy(position, type)`. `phase` is the value of `Math.random()` that sets the
   * first shoot timer of a ranged enemy.
   */
  function CreateEnemy(position: Vec3, kind: EnemyKind, phase: real): (e: Enemy)
    requires 0.0 <= phase < 1.0
    ensures Kept(e)
    ensures e.pos == position && e.kind == kind && e.mode == Idle && e.health == 100
    ensures e.path == [] && e.pathIndex == 0 && e.targetCell == None && e.searchTimer == 0.0
    ensures e.lastSightCheck == 0.0 && e.lastPathTime == 0.0 && e.hitFlashTimer == 0.0
    ensures kind == Ranged ==> e.shootTimer < e.shootCooldown
  {
    Enemy(position, 100, [], 0, 0.0, None, Idle, None, 0.0, None, 0, 0.0, 0.0, kind,
          if kind == Ranged then 1.2 else 0.0,
          if kind == Ranged then phase * 1.2 else 0.0,
          if kind == Ranged then 18.0 else 2.0)
  }

  /** The kind a spawn asks for: only the tag "ranged" makes a ranged enemy. */
  function KindOf(spawn: SpawnInfo): (k: EnemyKind)
    ensures k == Ranged <==> spawn.kind == "ranged"
  {
    if spawn.kind == "ranged" then Ranged else Melee
  }

  /**
   * `spawnEnemies(spawns)`: one fresh enemy per spawn, at the centre of its cell.
   * `phases[i]` is the `Math.random()` value drawn for spawn `i`.
   */
  method SpawnEnemies(s: Session, spawns: seq<SpawnInfo>, phases: seq<real>)
    requires |phases| == |spawns| && forall i :: 0 <= i < |phases| ==> 0.0 <= phases[i] < 1.0
    modifies s`enemies, s`remainingEnemies
    ensures |s.enemies| == |spawns| && s.remainingEnemies == |s.enemies|
    ensures forall i :: 0 <= i < |spawns| ==>
              s.enemies[i] == CreateEnemy(GridToWorld(spawns[i].cell.x, spawns[i].cell.y), KindOf(spawns[i]), phases[i])
    ensures forall i :: 0 <= i < |spawns| ==>
              Kept(s.enemies[i]) && s.enemies[i].mode == Idle && s.enemies[i].health == 100 && s.enemies[i].path == []
  {
    s.enemies := [];
    for i := 0 to |spawns|
      invariant |s.enemies| == i
      invariant forall j :: 0 <= j < i ==>
                  s.enemies[j] == CreateEnemy(GridToWorld(spawns[j].cell.x, spawns[j].cell.y), KindOf(spawns[j]), phases[j])
    {
      var spawn := spawns[i];
      var enemy := CreateEnemy(GridToWorld(spawn.cell.x, spawn.cell.y), KindOf(spawn), phases[i]);
      enemy := enemy.(health := 100, path := [], pathIndex := 0, lastPathTime := 0.0, targetCell := None,
                      mode := Idle, searchTimer := 0.0, lastSightCheck := 0.0);
      s.enemies := s.enemies + [enemy];
    }
    s.remainingEnemies := |s.enemies|;
  }

  /** `clearEnemies()`. */
  method ClearEnemies(s: Session)
    modifies s`enemies, s`remainingEnemies
    ensures s.enemies == [] && s.remainingEnemies == 0
  {
    s.enemies := [];
    s.remainingEnemies := 0;
  }

  // ---------------------------------------------------------------------
  // Patrol waypoints
  // ---------------------------------------------------------------------

  /** The candidates whose cell is floor, in order. */
  function FloorWaypoints(candidates: seq<Vec3>, g: Grid): seq<Vec3>
    requires WellFormed(g)
  {
    if candidates == [] then []
    else
      var last := candidates[|candidates| - 1];
      FloorWaypoints(candidates[..|candidates| - 1], g) + (if IsFloor(g, WorldToGrid(last)) then [last] else [])
  }

  /** The waypoints are exactly the floor candidates, in their order. */
  lemma {:induction false} FloorWaypointsSpec(candidates: seq<Vec3>, g: Grid, w: Vec3)
    requires WellFormed(g)
    ensures w in FloorWaypoints(candidates, g) <==> w in candidates && IsFloor(g, WorldToGrid(w))
    ensures Combat.Subsequence(FloorWaypoints(candidates, g), candidates)
    decreases |candidates|
  {
    if candidates != [] {
      var init, last := candidates[..|candidates| - 1], candidates[|candidates| - 1];
      FloorWaypointsSpec(init, g, w);
      assert candidates == init + [last];
      Combat.SubsequenceExtend(FloorWaypoints(init, g), init, last, IsFloor(g, WorldToGrid(last)));
    }
  }

  /** `generatePatrolWaypoints(center)`, given the candidate points on the circle around `center`. */
  method GeneratePatrolWaypoints(candidates: seq<Vec3>, g: Grid) returns (waypoints: seq<Vec3>)
    requires WellFormed(g)
    ensures waypoints == FloorWaypoints(candidates, g)
  {
    waypoints := [];
    for i := 0 to |candidates|
      invariant waypoints == FloorWaypoints(candidates[..i], g)
    {
      var waypoint := candidates[i];
      var cell := WorldToGrid(waypoint);
      assert candidates[..i + 1][..i] == candidates[..i];
      if g[cell.y][cell.x] == Floor {
        waypoints := waypoints + [waypoint];
      }
    }
    assert candidates[..|candidates|] == candidates;
  }

  // ---------------------------------------------------------------------
  // One enemy over one frame
  // ---------------------------------------------------------------------

  /** The shoot timer of a ranged enemy over one frame, and whether it fires. */
  function RangedTick(e: Enemy, sees: bool, distSq: real, delta: real): (Enemy, bool)
  {
    var t := MaxReal(0.0, e.shootTimer - delta);
    var fire := sees && distSq <= e.range * e.range && t <= 0.0;
    (e.(shootTimer := if fire then e.shootCooldown else t), fire)
  }

  /** The hit flash fades by `delta`, never below 0. */
  function FlashTick(e: Enemy, delta: real): Enemy
  {
    if e.hitFlashTimer > 0.0 then e.(hitFlashTimer := MaxReal(0.0, e.hitFlashTimer - delta)) else e
  }

  /** The perception step of a melee enemy: the state machine, given what it sees. */
  function Perceive(e: Enemy, sees: bool, camera: Vec3, waypoints: seq<Vec3>): Enemy
  {
    match e.mode
    case Idle =>
      if sees then e.(mode := Chase)
      else e.(mode := Patrol, patrolWaypoints := Some(waypoints), currentWaypointIndex := 0)
    case Patrol =>
      if sees then e.(mode := Chase)
      else if e.searchTimer > 10000.0 then e.(mode := Idle, searchTimer := 0.0)
      else e
    case Chase =>
      if !sees then e.(mode := Search, lastSeenPosition := Some(camera), searchTimer := 0.0) else e
    case Search =>
      if sees then e.(mode := Chase)
      else if e.searchTimer > 8000.0 then e.(mode := Patrol)
      else e
  }

  /** Perception runs only when more than 300 ms passed since the last one. */
  predicate PerceivesNow(e: Enemy, time: real)
  {
    time - e.lastSightCheck > 300.0
  }

  /** The enemy after the (possible) perception step and the search-timer update. */
  function Perceived(e: Enemy, f: Frame, sees: bool, waypoints: seq<Vec3>): Enemy
  {
    var e1 := if PerceivesNow(e, f.time) then Perceive(e.(lastSightCheck := f.time), sees, f.camera, waypoints) else e;
    e1.(searchTimer := e1.searchTimer + f.delta * 1000.0)
  }

  /** Walk toward the current waypoint, or move on to the next one once closer than 0.5. */
  function Patrolling(e: Enemy, delta: real, move: (Vec3, Vec3, real) -> Vec3): Enemy
    requires Kept(e)
  {
    if e.patrolWaypoints.Some? && |e.patrolWaypoints.value| > 0 then
      var ws := e.patrolWaypoints.value;
      var w := ws[e.currentWaypointIndex];
      if FlatDistSq(w, e.pos) < 0.25 then e.(currentWaypointIndex := (e.currentWaypointIndex + 1) % |ws|)
      else e.(pos := move(e.pos, w, delta * 1.5))
    else e
  }

  /** The chase re-path rule: no target cell yet, the player changed cell, or 800 ms passed. */
  predicate NeedsPath(e: Enemy, playerCell: GridPoint, time: real)
  {
    e.targetCell.None? || e.targetCell.value != playerCell || time - e.lastPathTime > 800.0
  }

  /** Take a new path toward `playerCell`. */
  function Repathed(e: Enemy, path: seq<GridPoint>, time: real, playerCell: GridPoint): Enemy
  {
    e.(path := path, pathIndex := 0, lastPathTime := time, targetCell := Some(playerCell))
  }

  /** Walk toward the next path cell, or move on to the one after once closer than 0.3. */
  function Following(e: Enemy, delta: real, move: (Vec3, Vec3, real) -> Vec3): Enemy
  {
    if 0 <= e.pathIndex < |e.path| then
      var next := e.path[e.pathIndex];
      var target := GridToWorld(next.x, next.y);
      if FlatDistSq(target, e.pos) < 0.09 then e.(pathIndex := if e.pathIndex + 1 <= |e.path| then e.pathIndex + 1 else |e.path|)
      else e.(pos := move(e.pos, target, delta * 2.2))
    else e
  }

  /** Head for where the player was last seen; once closer than 0.5 the enemy only turns. */
  function Searching(e: Enemy, delta: real, move: (Vec3, Vec3, real) -> Vec3): Enemy
  {
    match e.lastSeenPosition
    case None => e
    case Some(p) => if FlatDistSq(p, e.pos) < 0.25 then e else e.(pos := move(e.pos, p, delta * 1.8))
  }

  /** A melee enemy after one frame; `path` is the path taken if it re-paths. */
  function MeleeAfter(e: Enemy, f: Frame, senses: Senses, path: seq<GridPoint>): Enemy
    requires Kept(e) && 0.0 <= f.delta && WellFormed(f.grid)
  {
    var e1 := Perceived(e, f, senses.sees(e.pos), FloorWaypoints(senses.circle(e.pos), f.grid));
    PerceivedKept(e, f, senses.sees(e.pos), FloorWaypoints(senses.circle(e.pos), f.grid));
    FlashTick(Moved(e1, f, senses, path), f.delta)
  }

  /** The movement a melee enemy makes in the state perception left it in. */
  function Moved(e: Enemy, f: Frame, senses: Senses, path: seq<GridPoint>): Enemy
    requires Kept(e)
  {
    match e.mode
    case Idle => e
    case Patrol => Patrolling(e, f.delta, senses.move)
    case Chase =>
      Following(if NeedsPath(e, PlayerCell(f), f.time) then Repathed(e, path, f.time, PlayerCell(f)) else e,
                f.delta, senses.move)
    case Search => Searching(e, f.delta, senses.move)
  }

  /** A ranged enemy after one frame, and whether it fired. It never moves. */
  function RangedAfter(e: Enemy, f: Frame, senses: Senses): (Enemy, bool)
  {
    var r := RangedTick(e, senses.sees(e.pos), FlatDistSq(f.camera, e.pos), f.delta);
    (FlashTick(r.0, f.delta), r.1)
  }

  /** Any enemy after one frame. */
  function EnemyAfter(e: Enemy, f: Frame, senses: Senses, path: seq<GridPoint>): Enemy
    requires Kept(e) && 0.0 <= f.delta && WellFormed(f.grid)
  {
    if e.kind == Ranged then RangedAfter(e, f, senses).0 else MeleeAfter(e, f, senses, path)
  }

  /** The enemy fires a bolt this frame. */
  predicate Fires(e: Enemy, f: Frame, senses: Senses)
  {
    e.kind == Ranged && RangedAfter(e, f, senses).1
  }

  /** The enemy looks for a new path this frame. */
  predicate Repaths(e: Enemy, f: Frame, senses: Senses)
  {
    var e1 := Perceived(e, f, senses.sees(e.pos), []);
    e.kind == Melee && e1.mode == Chase && NeedsPath(e1, PlayerCell(f), f.time)
  }

  /** The enemy touches the player, before it moves: closer than 1.2 in the XZ plane. */
  predicate Touching(e: Enemy, camera: Vec3)
  {
    FlatDistSq(camera, e.pos) < 1.2 * 1.2
  }

  /** The result of `findPath(start, goal, g)`, as its contract states it. */
  ghost predicate IsFindPath(g: Grid, start: GridPoint, goal: GridPoint, path: seq<GridPoint>)
  {
    (path == [] <==> !IsFloor(g, start) || !IsFloor(g, goal) || start == goal || !Reaches(g, {}, start, goal)) &&
    (path != [] ==> FillWalk(g, {}, start, [start] + path) && path[|path| - 1] == goal && start !in path &&
                    NoShorter(g, start, goal, |path|))
  }

  /** `e'` is `e` after the frame `f`, and `path` is what `findPath` returned if `e` re-pathed. */
  ghost predicate Advanced(e: Enemy, f: Frame, senses: Senses, e': Enemy, path: seq<GridPoint>)
  {
    Kept(e) && 0.0 <= f.delta && WellFormed(f.grid) &&
    e' == EnemyAfter(e, f, senses, path) && Kept(e') &&
    (Repaths(e, f, senses) ==> IsFindPath(f.grid, WorldToGrid(e.pos), PlayerCell(f), path))
  }

  /** One enemy of the `updateEnemies` loop. */
  method UpdateEnemy(e: Enemy, f: Frame, senses: Senses)
    returns (e': Enemy, fired: bool, path: seq<GridPoint>)
    requires Kept(e) && 0.0 <= f.delta && WellFormed(f.grid)
    ensures Advanced(e, f, senses, e', path) && fired == Fires(e, f, senses)
  {
    path := [];
    if e.kind == Ranged {
      var r := RangedAfter(e, f, senses);
      EnemyAfterKept(e, f, senses, path);
      return r.0, r.1, path;
    }
    fired := false;
    var sees := senses.sees(e.pos);
    var waypoints := GeneratePatrolWaypoints(senses.circle(e.pos), f.grid);
    var e1 := Perceived(e, f, sees, waypoints);
    PerceivedKept(e, f, sees, waypoints);
    var e2 := e1;
    match e1.mode {
      case Idle =>
      case Patrol =>
        e2 := Patrolling(e1, f.delta, senses.move);
      case Chase =>
        var playerCell := PlayerCell(f);
        if NeedsPath(e1, playerCell, f.time) {
          path := FindPath(WorldToGrid(e1.pos), playerCell, f.grid);
          e2 := Repathed(e1, path, f.time, playerCell);
        }
        e2 := Following(e2, f.delta, senses.move);
      case Search =>
        e2 := Searching(e1, f.delta, senses.move);
    }
    e' := FlashTick(e2, f.delta);
    EnemyAfterKept(e, f, senses, path);
  }

  // ---------------------------------------------------------------------
  // The whole frame
  // ---------------------------------------------------------------------

  /** For each enemy of `es`, whether it touches the player. */
  function TouchFlags(es: seq<Enemy>, camera: Vec3): (r: seq<bool>)
    ensures |r| == |es| && forall i :: 0 <= i < |es| ==> r[i] == Touching(es[i], camera)
  {
    seq(|es|, i requires 0 <= i < |es| => Touching(es[i], camera))
  }

  /** The player's health after one drain of `drain` per touching enemy, in order, each stopping at 0. */
  function Drained(h: real, touches: seq<bool>, drain: real): real
  {
    if touches == [] then h
    else
      var h' := Drained(h, touches[..|touches| - 1], drain);
      if touches[|touches| - 1] then MaxReal(0.0, h' - drain) else h'
  }

  /** The number of touching enemies. */
  function Count(touches: seq<bool>): nat
  {
    if touches == [] then 0 else Count(touches[..|touches| - 1]) + (if touches[|touches| - 1] then 1 else 0)
  }

  lemma FlagsStep(es: seq<Enemy>, i: int, camera: Vec3)
    requires 0 <= i < |es|
    ensures TouchFlags(es[..i + 1], camera) == TouchFlags(es[..i], camera) + [Touching(es[i], camera)]
  {
    assert TouchFlags(es[..i + 1], camera)[..i] == TouchFlags(es[..i], camera);
  }

  /** One turn of the `updateEnemies` loop, for the enemy `es[i]`. */
  method StepEnemy(s: Session, f: Frame, senses: Senses, enemy: Enemy, ghost es: seq<Enemy>, ghost i: nat,
                   ghost h0: real, ghost v0: real, ghost p0: seq<EnemyProjectile>)
    returns (updated: Enemy, path: seq<GridPoint>)
    requires i < |es| && enemy == es[i] && Kept(enemy) && 0.0 <= f.delta && WellFormed(f.grid)
    requires s.health == Drained(h0, TouchFlags(es[..i], f.camera), 30.0 * f.delta)
    requires s.enemyProjectiles == p0 + Volley(es[..i], f, senses)
    requires s.damageVignetteTimer == (if true in TouchFlags(es[..i], f.camera) then 0.3 else v0)
    modifies s`health, s`damageVignetteTimer, s`enemyProjectiles
    ensures Advanced(enemy, f, senses, updated, path)
    ensures s.health == Drained(h0, TouchFlags(es[..i + 1], f.camera), 30.0 * f.delta)
    ensures s.enemyProjectiles == p0 + Volley(es[..i + 1], f, senses)
    ensures s.damageVignetteTimer == (if true in TouchFlags(es[..i + 1], f.camera) then 0.3 else v0)
  {
    var touching := Touching(enemy, f.camera);
    var fired;
    updated, fired, path := UpdateEnemy(enemy, f, senses);
    if fired {
      s.enemyProjectiles := s.enemyProjectiles + [Bolt(enemy, f.camera, senses.heading)];
    }
    VolleyStep(es, i, f, senses);
    Contact(s, touching, f.delta, h0, v0, TouchFlags(es[..i], f.camera));
    FlagsStep(es, i, f.camera);
  }

  lemma AdvancedExtend(es: seq<Enemy>, f: Frame, senses: Senses, next: seq<Enemy>, paths: seq<seq<GridPoint>>,
                       e': Enemy, path: seq<GridPoint>)
    requires |next| == |paths| < |es|
    requires forall j :: 0 <= j < |next| ==> Advanced(es[j], f, senses, next[j], paths[j])
    requires Advanced(es[|next|], f, senses, e', path)
    ensures forall j :: 0 <= j < |next| + 1 ==> Advanced(es[j], f, senses, (next + [e'])[j], (paths + [path])[j])
  {
    forall j | 0 <= j < |next| + 1
      ensures Advanced(es[j], f, senses, (next + [e'])[j], (paths + [path])[j])
    {
      if j < |next| {
        assert (next + [e'])[j] == next[j] && (paths + [path])[j] == paths[j];
      }
    }
  }

  /** One enemy's contact damage: a touching enemy drains `30 * delta` and restarts the vignette. */
  method Contact(s: Session, touching: bool, delta: real, ghost h0: real, ghost v0: real, ghost touches: seq<bool>)
    requires s.health == Drained(h0, touches, 30.0 * delta)
    requires s.damageVignetteTimer == (if true in touches then 0.3 else v0)
    modifies s`health, s`damageVignetteTimer
    ensures s.health == Drained(h0, touches + [touching], 30.0 * delta)
    ensures s.damageVignetteTimer == (if true in touches + [touching] then 0.3 else v0)
  {
    DrainedStep(h0, touches, touching, 30.0 * delta);
    if touching {
      s.health := MaxReal(0.0, s.health - 30.0 * delta);
      s.damageVignetteTimer := 0.3;
    } else {
      assert true in touches + [touching] <==> true in touches;
    }
  }

  lemma DrainedStep(h: real, touches: seq<bool>, b: bool, drain: real)
    ensures Drained(h, touches + [b], drain) ==
            if b then MaxReal(0.0, Drained(h, touches, drain) - drain) else Drained(h, touches, drain)
  {
    assert (touches + [b])[..|touches|] == touches;
  }

  lemma VolleyStep(es: seq<Enemy>, i: int, f: Frame, senses: Senses)
    requires 0 <= i < |es|
    ensures Volley(es[..i + 1], f, senses) ==
            Volley(es[..i], f, senses) + (if Fires(es[i], f, senses) then [Bolt(es[i], f.camera, senses.heading)] else [])
  {
    assert es[..i + 1][..i] == es[..i];
  }

  /** The bolt a ranged enemy fires: from 1.2 above it, level, toward the camera, at speed 10. */
  function Bolt(e: Enemy, camera: Vec3, heading: (Vec3, Vec3) -> Vec3): (b: EnemyProjectile)
    ensures b.pos == b.prev && b.age == 0.0 && b.pos.y == e.pos.y + 1.2
  {
    var origin := Vec3(e.pos.x, e.pos.y + 1.2, e.pos.z);
    var target := Vec3(camera.x, origin.y, camera.z);
    var dir := heading(origin, target);
    EnemyProjectile(origin, origin, Vec3(dir.x * 10.0, dir.y * 10.0, dir.z * 10.0), 0.0)
  }

  /** The bolts fired by the enemies `es`, in order. */
  function Volley(es: seq<Enemy>, f: Frame, senses: Senses): seq<EnemyProjectile>
  {
    if es == [] then []
    else
      var last := es[|es| - 1];
      Volley(es[..|es| - 1], f, senses) + (if Fires(last, f, senses) then [Bolt(last, f.camera, senses.heading)] else [])
  }

  /**
   * What one frame does to the enemies `es`, the health `h`, the vignette timer `v` and the
   * enemy bolts `ps`: every enemy advances (`paths[i]` being the path enemy `i` took if it
   * re-pathed), each touching enemy drains `30 * delta` of health, a touch restarts the
   * vignette, and the bolts fired are appended in enemy order.
   */
  ghost predicate FrameUpdate(es: seq<Enemy>, h: real, v: real, ps: seq<EnemyProjectile>, f: Frame, senses: Senses,
                              es': seq<Enemy>, h': real, v': real, ps': seq<EnemyProjectile>, paths: seq<seq<GridPoint>>)
  {
    |es'| == |es| && |paths| == |es| &&
    (forall i :: 0 <= i < |es| ==> Advanced(es[i], f, senses, es'[i], paths[i])) &&
    h' == Drained(h, TouchFlags(es, f.camera), 30.0 * f.delta) &&
    ps' == ps + Volley(es, f, senses) &&
    v' == (if true in TouchFlags(es, f.camera) then 0.3 else v)
  }

  /**
   * `updateEnemies(delta, time)`. Without a camera or a level nothing changes. `paths[i]`
   * is the path enemy `i` took if it re-pathed.
   */
  method UpdateEnemies(s: Session, delta: real, time: real, senses: Senses)
    returns (ghost paths: seq<seq<GridPoint>>)
    requires 0.0 <= delta
    requires s.levelState != null ==> WellFormed(s.levelState.grid)
    requires forall i :: 0 <= i < |s.enemies| ==> Kept(s.enemies[i])
    modifies s`enemies, s`health, s`damageVignetteTimer, s`enemyProjectiles
    ensures s.camera.None? || s.levelState == null ==>
              s.enemies == old(s.enemies) && s.health == old(s.health) &&
              s.damageVignetteTimer == old(s.damageVignetteTimer) && s.enemyProjectiles == old(s.enemyProjectiles)
    ensures s.camera.Some? && s.levelState != null ==>
              FrameUpdate(old(s.enemies), old(s.health), old(s.damageVignetteTimer), old(s.enemyProjectiles),
                          Frame(delta, time, s.camera.value, s.levelState.grid), senses,
                          s.enemies, s.health, s.damageVignetteTimer, s.enemyProjectiles, paths)
  {
    paths := seq(|s.enemies|, i => []);
    if s.camera.None? || s.levelState == null {
      return;
    }
    var f := Frame(delta, time, s.camera.value, s.levelState.grid);
    paths := UpdateEach(s, f, senses);
  }

  /** The loop of `updateEnemies` over the enemies, once camera and level are known. */
  method UpdateEach(s: Session, f: Frame, senses: Senses) returns (ghost paths: seq<seq<GridPoint>>)
    requires 0.0 <= f.delta && WellFormed(f.grid)
    requires forall i :: 0 <= i < |s.enemies| ==> Kept(s.enemies[i])
    modifies s`enemies, s`health, s`damageVignetteTimer, s`enemyProjectiles
    ensures FrameUpdate(old(s.enemies), old(s.health), old(s.damageVignetteTimer), old(s.enemyProjectiles), f, senses,
                        s.enemies, s.health, s.damageVignetteTimer, s.enemyProjectiles, paths)
  {
    ghost var es, h0, v0, p0 := s.enemies, s.health, s.damageVignetteTimer, s.enemyProjectiles;
    paths := [];
    var next: seq<Enemy> := [];
    for i := 0 to |s.enemies|
      invariant s.enemies == es && |next| == i && |paths| == i
      invariant forall j :: 0 <= j < i ==> Advanced(es[j], f, senses, next[j], paths[j])
      invariant s.health == Drained(h0, TouchFlags(es[..i], f.camera), 30.0 * f.delta)
      invariant s.enemyProjectiles == p0 + Volley(es[..i], f, senses)
      invariant s.damageVignetteTimer == (if true in TouchFlags(es[..i], f.camera) then 0.3 else v0)
    {
      var updated, path := StepEnemy(s, f, senses, s.enemies[i], es, i, h0, v0, p0);
      AdvancedExtend(es, f, senses, next, paths, updated, path);
      next := next + [updated];
      paths := paths + [path];
    }
    s.enemies := next;
    assert es[..|es|] == es;
  }

  // ---------------------------------------------------------------------
  // Properties
  // ---------------------------------------------------------------------

  /** The perception step keeps what every enemy keeps true. */
  lemma PerceivedKept(e: Enemy, f: Frame, sees: bool, waypoints: seq<Vec3>)
    requires Kept(e) && 0.0 <= f.delta
    ensures Kept(Perceived(e, f, sees, waypoints))
    ensures Perceived(e, f, sees, waypoints).pos == e.pos
  {
  }

  lemma PatrollingKept(e: Enemy, delta: real, move: (Vec3, Vec3, real) -> Vec3)
    requires Kept(e)
    ensures Kept(Patrolling(e, delta, move)) && Patrolling(e, delta, move).kind == e.kind
    ensures Patrolling(e, delta, move).health == e.health
  {
    if e.patrolWaypoints.Some? && |e.patrolWaypoints.value| > 0 {
      var n := |e.patrolWaypoints.value|;
      assert 0 <= (e.currentWaypointIndex + 1) % n < n;
    }
  }

  lemma FollowingKept(e: Enemy, delta: real, move: (Vec3, Vec3, real) -> Vec3)
    requires Kept(e)
    ensures Kept(Following(e, delta, move)) && Following(e, delta, move).kind == e.kind
    ensures Following(e, delta, move).health == e.health
  {
  }

  /** One frame keeps what every enemy keeps true. */
  lemma EnemyAfterKept(e: Enemy, f: Frame, senses: Senses, path: seq<GridPoint>)
    requires Kept(e) && 0.0 <= f.delta && WellFormed(f.grid)
    ensures Kept(EnemyAfter(e, f, senses, path))
    ensures EnemyAfter(e, f, senses, path).kind == e.kind && EnemyAfter(e, f, senses, path).health == e.health
  {
    if e.kind == Melee {
      var e1 := Perceived(e, f, senses.sees(e.pos), FloorWaypoints(senses.circle(e.pos), f.grid));
      PerceivedKept(e, f, senses.sees(e.pos), FloorWaypoints(senses.circle(e.pos), f.grid));
      MovedKept(e1, f, senses, path);
    }
  }

  lemma MovedKept(e: Enemy, f: Frame, senses: Senses, path: seq<GridPoint>)
    requires Kept(e) && 0.0 <= f.delta
    ensures Kept(Moved(e, f, senses, path))
    ensures Moved(e, f, senses, path).kind == e.kind && Moved(e, f, senses, path).health == e.health
  {
    match e.mode {
      case Idle =>
      case Patrol => PatrollingKept(e, f.delta, senses.move);
      case Chase =>
        var e2 := if NeedsPath(e, PlayerCell(f), f.time) then Repathed(e, path, f.time, PlayerCell(f)) else e;
        FollowingKept(e2, f.delta, senses.move);
      case Search =>
    }
  }

  /**
   * The perception table. Seeing the player always means chasing; without perception the
   * state is unchanged; otherwise, not seeing the player: IDLE starts a patrol at its first
   * waypoint, PATROL goes idle (search timer reset) once the timer passed 10000, CHASE
   * starts a search from the camera position with the timer reset, and SEARCH goes back
   * to patrolling once the timer passed 8000.
   */
  lemma PerceptionTable(e: Enemy, f: Frame, sees: bool, waypoints: seq<Vec3>)
    ensures var r := Perceived(e, f, sees, waypoints);
      (!PerceivesNow(e, f.time) ==>
         r == e.(searchTimer := e.searchTimer + f.delta * 1000.0)) &&
      (PerceivesNow(e, f.time) ==> r.lastSightCheck == f.time) &&
      (PerceivesNow(e, f.time) && sees ==> r.mode == Chase) &&
      (PerceivesNow(e, f.time) && !sees ==>
         (e.mode == Idle ==> r.mode == Patrol && r.patrolWaypoints == Some(waypoints) && r.currentWaypointIndex == 0) &&
         (e.mode == Patrol ==> (r.mode == Idle <==> e.searchTimer > 10000.0) &&
                               (r.mode == Idle ==> r.searchTimer == f.delta * 1000.0) &&
                               (r.mode != Idle ==> r.mode == Patrol)) &&
         (e.mode == Chase ==> r.mode == Search && r.lastSeenPosition == Some(f.camera) &&
                              r.searchTimer == f.delta * 1000.0) &&
         (e.mode == Search ==> (r.mode == Patrol <==> e.searchTimer > 8000.0) &&
                               (r.mode != Patrol ==> r.mode == Search)))
  {
  }

  /** A search only ever starts from a chase, and a chase only ends when the player is not seen. */
  lemma SearchFollowsChase(e: Enemy, f: Frame, sees: bool, waypoints: seq<Vec3>)
    ensures var r := Perceived(e, f, sees, waypoints);
      (r.mode == Search && e.mode != Search ==> e.mode == Chase && !sees && r.lastSeenPosition == Some(f.camera)) &&
      (e.mode == Chase && r.mode != Chase ==> !sees && r.mode == Search)
  {
  }

  /**
   * The re-path rule of a chasing melee enemy: when it applies, the enemy takes the new
   * path with `pathIndex` back at 0 (at most 1 once it has stepped onto its first cell),
   * and remembers the time and the player's cell. Otherwise the path is kept and `pathIndex`
   * moves on by at most one, never past the end.
   */
  lemma RepathRule(e: Enemy, f: Frame, senses: Senses, path: seq<GridPoint>)
    requires Kept(e) && 0.0 <= f.delta && WellFormed(f.grid) && e.kind == Melee
    requires Perceived(e, f, senses.sees(e.pos), FloorWaypoints(senses.circle(e.pos), f.grid)).mode == Chase
    ensures var e1 := Perceived(e, f, senses.sees(e.pos), FloorWaypoints(senses.circle(e.pos), f.grid));
            var r := EnemyAfter(e, f, senses, path);
      (NeedsPath(e1, PlayerCell(f), f.time) ==>
         r.path == path && r.pathIndex <= 1 && r.lastPathTime == f.time && r.targetCell == Some(PlayerCell(f))) &&
      (!NeedsPath(e1, PlayerCell(f), f.time) ==>
         r.path == e.path && r.lastPathTime == e.lastPathTime && r.targetCell == e.targetCell &&
         (r.pathIndex == e.pathIndex || r.pathIndex == e.pathIndex + 1) && r.pathIndex <= |r.path|)
  {
    var e1 := Perceived(e, f, senses.sees(e.pos), FloorWaypoints(senses.circle(e.pos), f.grid));
    PerceivedKept(e, f, senses.sees(e.pos), FloorWaypoints(senses.circle(e.pos), f.grid));
    var e2 := if NeedsPath(e1, PlayerCell(f), f.time) then Repathed(e1, path, f.time, PlayerCell(f)) else e1;
    assert EnemyAfter(e, f, senses, path) == FlashTick(Following(e2, f.delta, senses.move), f.delta);
    FollowingFields(e2, f.delta, senses.move);
  }

  /**
   * The patrol step: with waypoints, an enemy closer than 0.5 to its current waypoint moves
   * on to the next one (back to the first after the last) and stays put, and otherwise steps
   * toward that waypoint at 1.5 units per second with its waypoint unchanged; an enemy
   * without waypoints does not move.
   */
  lemma PatrolRule(e: Enemy, delta: real, move: (Vec3, Vec3, real) -> Vec3)
    requires Kept(e)
    ensures var r := Patrolling(e, delta, move);
      r.mode == e.mode && r.patrolWaypoints == e.patrolWaypoints &&
      (e.patrolWaypoints.None? || |e.patrolWaypoints.value| == 0 ==> r == e) &&
      (e.patrolWaypoints.Some? && |e.patrolWaypoints.value| > 0 ==>
         var ws := e.patrolWaypoints.value;
         var w := ws[e.currentWaypointIndex];
         (FlatDistSq(w, e.pos) < 0.25 ==>
            r.pos == e.pos &&
            (e.currentWaypointIndex + 1 < |ws| ==> r.currentWaypointIndex == e.currentWaypointIndex + 1) &&
            (e.currentWaypointIndex + 1 == |ws| ==> r.currentWaypointIndex == 0)) &&
         (FlatDistSq(w, e.pos) >= 0.25 ==>
            r.pos == move(e.pos, w, delta * 1.5) && r.currentWaypointIndex == e.currentWaypointIndex))
  {
    if e.patrolWaypoints.Some? && |e.patrolWaypoints.value| > 0 {
      var n := |e.patrolWaypoints.value|;
      var i := e.currentWaypointIndex;
      if i + 1 < n {
        assert (i + 1) % n == i + 1;
      } else {
        assert (i + 1) % n == 0;
      }
    }
  }

  /**
   * The search step: an enemy with a last-seen position farther than 0.5 steps toward it at
   * 1.8 units per second, and otherwise stays where it is; nothing but the position changes.
   */
  lemma SearchRule(e: Enemy, delta: real, move: (Vec3, Vec3, real) -> Vec3)
    ensures var r := Searching(e, delta, move);
      r == e.(pos := r.pos) &&
      (e.lastSeenPosition.None? || FlatDistSq(e.lastSeenPosition.value, e.pos) < 0.25 ==> r == e) &&
      (e.lastSeenPosition.Some? && FlatDistSq(e.lastSeenPosition.value, e.pos) >= 0.25 ==>
         r.pos == move(e.pos, e.lastSeenPosition.value, delta * 1.8))
  {
  }

  lemma FollowingFields(e: Enemy, delta: real, move: (Vec3, Vec3, real) -> Vec3)
    requires 0 <= e.pathIndex <= |e.path|
    ensures var r := Following(e, delta, move);
      r.path == e.path && r.lastPathTime == e.lastPathTime && r.targetCell == e.targetCell &&
      (r.pathIndex == e.pathIndex || r.pathIndex == e.pathIndex + 1) && r.pathIndex <= |r.path|
  {
  }

  /** Perception does not touch the fields the re-path rule reads, so `Repaths` is decided before moving. */
  lemma NeedsPathBeforePerception(e: Enemy, f: Frame, sees: bool, waypoints: seq<Vec3>)
    ensures NeedsPath(Perceived(e, f, sees, waypoints), PlayerCell(f), f.time) <==> NeedsPath(e, PlayerCell(f), f.time)
  {
  }

  /**
   * The shoot timer of a ranged enemy: it fires exactly when it sees the player within its
   * range and the timer, counted down by `delta` and stopped at 0, has run out; firing
   * resets the timer to the cooldown, and otherwise the timer stays counted down.
   */
  lemma ShootTimer(e: Enemy, f: Frame, senses: Senses)
    requires Kept(e) && e.kind == Ranged && 0.0 <= f.delta
    ensures var r := RangedAfter(e, f, senses);
      (r.1 <==> senses.sees(e.pos) && FlatDistSq(f.camera, e.pos) <= 18.0 * 18.0 && e.shootTimer <= f.delta) &&
      (r.1 ==> r.0.shootTimer == 1.2) &&
      (!r.1 ==> r.0.shootTimer == MaxReal(0.0, e.shootTimer - f.delta)) &&
      0.0 <= r.0.shootTimer <= 1.2 && r.0.pos == e.pos && r.0.mode == e.mode
  {
  }

  /**
   * Right after firing, a ranged enemy cannot fire again until deltas adding up to at least
   * the cooldown have passed: frames whose deltas sum to less than 1.2 never fire.
   */
  lemma {:induction false} NoRefireWithinCooldown(e: Enemy, fs: seq<Frame>, senses: Senses)
    requires Kept(e) && e.kind == Ranged && e.shootTimer == 1.2
    requires forall k :: 0 <= k < |fs| ==> 0.0 <= fs[k].delta
    requires SumDelta(fs) < 1.2
    ensures forall k :: 0 <= k < |fs| ==> !RangedAfter(Replay(e, fs[..k], senses), fs[k], senses).1
    ensures Replay(e, fs, senses).shootTimer == 1.2 - SumDelta(fs)
    decreases |fs|
  {
    if fs != [] {
      var init := fs[..|fs| - 1];
      assert forall k :: 0 <= k < |init| ==> init[k] == fs[k];
      SumDeltaPrefix(fs);
      NoRefireWithinCooldown(e, init, senses);
      var before := Replay(e, init, senses);
      ReplayKept(e, init, senses);
      assert fs[..|fs| - 1] == init;
      forall k | 0 <= k < |fs|
        ensures !RangedAfter(Replay(e, fs[..k], senses), fs[k], senses).1
      {
        if k < |init| {
          assert fs[..k] == init[..k];
        }
      }
    }
  }

  /** The sum of the deltas of `fs`. */
  function SumDelta(fs: seq<Frame>): real
  {
    if fs == [] then 0.0 else SumDelta(fs[..|fs| - 1]) + fs[|fs| - 1].delta
  }

  lemma SumDeltaPrefix(fs: seq<Frame>)
    requires fs != [] && forall k :: 0 <= k < |fs| ==> 0.0 <= fs[k].delta
    ensures SumDelta(fs[..|fs| - 1]) <= SumDelta(fs)
  {
  }

  /** A ranged enemy after the frames `fs`, one after the other. */
  function Replay(e: Enemy, fs: seq<Frame>, senses: Senses): Enemy
  {
    if fs == [] then e else RangedAfter(Replay(e, fs[..|fs| - 1], senses), fs[|fs| - 1], senses).0
  }

  lemma {:induction false} ReplayKept(e: Enemy, fs: seq<Frame>, senses: Senses)
    requires Kept(e) && e.kind == Ranged && forall k :: 0 <= k < |fs| ==> 0.0 <= fs[k].delta
    ensures Kept(Replay(e, fs, senses)) && Replay(e, fs, senses).kind == Ranged
    decreases |fs|
  {
    if fs != [] {
      var init := fs[..|fs| - 1];
      assert forall k :: 0 <= k < |init| ==> init[k] == fs[k];
      ReplayKept(e, init, senses);
      ShootTimer(Replay(e, init, senses), fs[|fs| - 1], senses);
    }
  }

  /**
   * Contact damage over a frame: with `k` enemies touching the player, health drops by
   * `drain` (`30 * delta`) per enemy, stopping at 0.
   */
  lemma {:induction false} DrainedSpec(h: real, touches: seq<bool>, drain: real)
    requires 0.0 <= h && 0.0 <= drain
    ensures Drained(h, touches, drain) == MaxReal(0.0, h - Product(Count(touches), drain))
  {
    DrainedTimes(h, touches, drain);
    TimesProduct(Count(touches), drain);
  }

  /** `k` times `d`. */
  function Product(k: nat, d: real): real
  {
    (k as real) * d
  }

  /** `k` drains of `d`, added up one by one. */
  function Times(k: nat, d: real): real
  {
    if k == 0 then 0.0 else Times(k - 1, d) + d
  }

  lemma {:induction false} TimesProduct(k: nat, d: real)
    ensures Times(k, d) == Product(k, d)
  {
    if k > 0 {
      TimesProduct(k - 1, d);
      assert ((k - 1) as real) * d + d == (k as real) * d;
    }
  }

  lemma {:induction false} DrainedTimes(h: real, touches: seq<bool>, drain: real)
    requires 0.0 <= h && 0.0 <= drain
    ensures Drained(h, touches, drain) == MaxReal(0.0, h - Times(Count(touches), drain))
    ensures 0.0 <= Times(Count(touches), drain)
    decreases |touches|
  {
    if touches != [] {
      var init := touches[..|touches| - 1];
      DrainedTimes(h, init, drain);
    }
  }

  /** Contact damage never raises health nor takes it below 0, and lowers it only if some enemy touches. */
  lemma {:induction false} DrainedBounds(h: real, touches: seq<bool>, drain: real)
    requires 0.0 <= h && 0.0 <= drain
    ensures 0.0 <= Drained(h, touches, drain) <= h
    ensures Drained(h, touches, drain) < h ==> true in touches
    decreases |touches|
  {
    if touches != [] {
      var init := touches[..|touches| - 1];
      DrainedBounds(h, init, drain);
      if !touches[|touches| - 1] && Drained(h, touches, drain) < h {
        var j :| 0 <= j < |init| && init[j];
        assert touches[j];
      }
    }
  }

  /** Bolts come only from ranged enemies: at most one per enemy, none from melee ones. */
  lemma {:induction false} VolleyFromRanged(es: seq<Enemy>, f: Frame, senses: Senses)
    ensures |Volley(es, f, senses)| <= |es|
    ensures (forall i :: 0 <= i < |es| ==> es[i].kind == Melee) ==> Volley(es, f, senses) == []
    decreases |es|
  {
    if es != [] {
      var init := es[..|es| - 1];
      assert forall i :: 0 <= i < |init| ==> init[i] == es[i];
      VolleyFromRanged(init, f, senses);
    }
  }
}
