# Dungeon-Shooter simulation core in Dafny

This project models the simulation core of Dungeon-Shooter, a browser first-person shooter set in
generated dungeons, and proves properties of that model. The core covers:

- **Level generation.** A seeded mulberry32 generator drives everything. Rooms are placed by
  rejection against a padded box, joined by L-shaped corridors, and an exit room is chosen farthest
  from the start. Then come the key and lever cells, the room tags (treasure, trap, armory), and the
  enemy, prop and potion spawn lists. The generated floor is exactly the rooms and the corridors,
  and it is one 4-connected region. So with every door open, the key cell, the lever cell, the exit
  centre and the treasure cell are all reached from the start centre.
- **Reachability checks.** These cover room entrances, the 4-connected flood fill and the choice of
  door cells.
- **Objective flags.** These cover the key, potion, treasure and lever pickups, the doors, held
  items, the fog-of-war map, the portal gate and the game reset.
- **Grid mapping.** World coordinates map to grid cells and back.
- **Enemy AI.** The core runs breadth-first path finding, the IDLE/PATROL/CHASE/SEARCH state
  machine, the chase re-path rule, the ranged shoot timer and contact damage.
- **Collision predicates.** Push-out from boxes, point in box, and the segment/box and
  segment/sphere tests over mathematical reals.
- **Combat bookkeeping.** Shield-then-health damage, and the bullet, bolt and enemy lists with
  their removals.

The model follows the shape of the source:

- Code that changes state step by step is imperative Dafny:
  - the live game state is a `Session` class;
  - a level's fog map and flags are a `LevelState` class;
  - the generator is an `Rng` class whose counter is a `bv32`;
  - the grid is carved in place in an `array2`;
  - the path search fills `visited`/`prev` arrays;
  - the backward splice loops are `while` loops over sequence fields with their invariants.
- Each such method is proved against a specification function of the old state. The properties the
  game relies on are lemmas about those functions.
- Level generation is proved against functions of the draw stream. `Dungeon.Placement` gives the
  rooms four draws place. `Spawns.FloorCellSearch`, `SpawnLists.EnemySpawns`, `PropSpawns` and
  `PotionSpawns` give the spawn lists, reading draws `pos`, `pos + 1`, … in the source's call order.
  Each generating method ensures that its result and the draws it used equal that function's, for
  every stream that agrees with the generator's record from its first draw on.
  `Spawns.StreamRecords` shows that the seed's own outputs are such a stream.
- Pure helpers are functions.

Modules follow the source files:

- `State` (`state.dfy`): configuration constants, shared records and the two classes.
- `Grid` (`grid.dfy`): `grid.ts`.
- `SeededRandom` (`rng.dfy`): `createRng`, `randRange` and the index draws.
- `Sorting` (`sorting.dfy`): the stable `Array.prototype.sort` and `filter` the generator uses.
- `Dungeon` (`dungeon.dfy`): `generateDungeon`, room placement, corridors and the exit choice.
- `Reachability` (`reachability.dfy`): entrances, flood fill and door cells.
- `Spawns` (`spawns.dfy`): room picks, key and lever cells, tags and the treasure spawn.
- `SpawnLists` (`spawnlists.dfy`): the enemy, prop and potion spawn lists.
- `LevelGen` (`levelgen.dfy`): `createLevelState`.
- `Collision` (`collision.dfy`): `collision.ts`.
- `Props` (`props.dfy`): `props.ts`.
- `Combat` (`combat.dfy`): `combat.ts`.
- `Objectives` (`objectives.dfy`): the pickup, door, item, fog, portal and reset handlers of `level.ts`.
- `Pathfinding` (`pathfinding.dfy`): `findPath`.
- `Enemies` (`enemies.dfy`): the rest of `enemies.ts`.

Some behaviour of the source is reproduced on purpose:

- The enemy spawn loop stops at the number of rooms, so no room gets a second spawn.
- When no room is at least 10 cells from the start, the fallback sort reorders the caller's room
  list. The prop, potion and lever steps then see the new order.
- Rooms are compared by their unique `id`, which stands in for the source's reference identity.
- `worldToGrid` divides both axes by the grid width. This is right because the configured grid is
  41 by 41.
- `state.ts` does not declare several state fields that `level.ts` uses: `doors`, `lever`,
  `treasurePickups`, `inventory.held`, `player.shield` and `doorColliders`. The model declares them
  from their use in `level.ts`.

## Model

| member | source | states |
|---|---|---|
| Grid.WorldToGrid | src/game/grid.ts:12-20 | the cell is always inside the 41×41 grid (each axis clamped to [0, 40]) |
| Grid.WorldToGridOfCentre | src/game/grid.ts:4-20 | the world centre of an in-bounds cell (x, y) maps back to (x, y) |
| Grid.GridToWorldLayout | src/game/grid.ts:4-10 | cell centres lie on the ground, one cell size apart on each axis, and the grid is centred on the origin |
| Grid.WorldToGridNearestCentre | src/game/grid.ts:4-20 | a point on the map lies in the half-open 2×2 square around the centre of the cell it maps to |
| Grid.Manhattan | src/game/grid.ts:22-24 | the distance is a natural number and is 0 exactly when the cells are equal |
| Grid.ManhattanMetric | src/game/grid.ts:22-24 | the distance is symmetric and obeys the triangle inequality |
| Grid.ScaleUnit | src/game/grid.ts:32-33 | `Math.floor(u * n)` of a draw u in [0, 1) is an index in [0, n) |
| Grid.GetRandomFloorCell | src/game/grid.ts:26-42 | it makes 1 to 200 attempts; it returns the last candidate drawn, every earlier candidate was a wall or too close to the camera's cell, and it returns an acceptable cell whenever it stopped before 200 attempts (otherwise it may return a wall) |
| Grid.GetRandomFloorCellInRoom | src/game/grid.ts:44-65 | it makes 1 to 100 attempts, every earlier candidate was rejected, the result is the last candidate if that is floor and null otherwise, a result is a floor cell of the room, and stopping before 100 attempts means a floor cell at the required distance |
| Grid.CreateDiscoveryGrid | src/game/grid.ts:67-71 | a fresh 41×41 grid that is `false` everywhere |
| Collision.ResolveCollisions | src/game/collision.ts:5-21 | the returned position is the start position pushed out of the walls, then the prop colliders, then the door colliders, one at a time in that order |
| Collision.PushOutSeparates | src/game/collision.ts:8-18 | a push keeps y and moves one axis only, to the box face ± radius (z + radius when the point is inside the box); a point that started outside the box no longer penetrates it |
| Collision.PushAlongX | src/game/collision.ts:14-15 | when the x gap is the larger one, only x changes, to `minX − radius` or `maxX + radius`, and the point is clear of the box |
| Collision.PushAlongZ | src/game/collision.ts:16-17 | otherwise, with a non-zero z gap, only z changes, to `minZ − radius` or `maxZ + radius`, and the point is clear of the box |
| Collision.ResolveKeepsHeight | src/game/collision.ts:5-21 | resolution never changes y |
| Collision.ResolveWithoutContact | src/game/collision.ts:5-21 | a position whose clamped closest point is at least `radius` from every collider is unchanged |
| Collision.IsPointInsideObstacle | src/game/collision.ts:23-36 | true iff some wall, prop or door collider contains (x, z), with closed bounds |
| Collision.SegmentAabbIntersect | src/game/collision.ts:38-67 | the loop over the x and z slabs returns the slab-clipping verdict |
| Collision.ClipExact | src/game/collision.ts:52-64 | for slabs whose directions are 0 or at least 1e-6 in magnitude, clipping succeeds iff some t in [tMin, tMax] lies in every slab |
| Collision.SegmentHitsBoxExact | src/game/collision.ts:38-67 | with such directions, the test is true iff some point start + t·(end − start), t in [0, 1], lies in the box's XZ rectangle (y is ignored) |
| Collision.SegmentFromInsideHits | src/game/collision.ts:38-67 | a segment that starts inside the box always hits it |
| Collision.ClosestParameterIsClosest | src/game/collision.ts:75-82 | the clamped projection parameter gives the point of the segment closest to the centre |
| Collision.SegmentHitsSphereExact | src/game/collision.ts:69-84 | for a segment of non-zero length, the test is true iff some point of the segment is within `radius` of the centre |
| Collision.SlabsAt | src/game/collision.ts:47-50 | the x and z slabs hold the point at parameter t iff the box's XZ rectangle contains it |
| Collision.SlabTimes | src/game/collision.ts:57-60 | for a non-parallel slab, t is inside it iff t lies between the sorted entry and exit times |
| Collision.ClipAxisExact | src/game/collision.ts:57-63 | clipping [tMin, tMax] by one slab fails iff no t of the interval is in the slab, and otherwise yields exactly the t of the interval that are |
| Collision.ClipParallelExact | src/game/collision.ts:53-55 | for a slab with direction below 1e-6 in magnitude and exactly 0, every t is inside iff the origin lies between the bounds |
| Collision.ClipAxisFromInside | src/game/collision.ts:57-63 | an origin inside the slab keeps t = 0 in the clipped interval |
| Collision.DistanceQuadratic | src/game/collision.ts:75-83 | the squared distance from the point at s to the centre is `L s² − 2 s (w·dir) + w·w` |
| Collision.QuadraticMinimum | src/game/collision.ts:78-82 | over [0, 1] that quadratic is smallest at the clamped projection parameter |
| Props.ClearProps | src/game/props.ts:5-9 | both `props` and `propColliders` are empty afterwards |
| Props.ResolvePropKind | src/game/props.ts:42-43 | a given kind is kept; without one, a draw in [0, 1) picks one of crate, barrel, pillar, rock |
| Props.PropHealth | src/game/props.ts:46-59 | starting health is 3 exactly for a pillar and 2 for every other kind |
| Props.MeshPosition | src/game/props.ts:71-76 | the mesh keeps x and z and stands at height 1.4 (pillar) or 0.6 (anything else) |
| Props.CreateProp | src/game/props.ts:41-80 | the prop's health is that of its kind (2 or 3), and its collider is the mesh bounds at the lifted position |
| Props.SpawnProps | src/game/props.ts:11-20 | afterwards there is one prop per spawn, in spawn order, and `props[i].collider == propColliders[i]` for every i |
| Props.DamagedAligned | src/game/props.ts:22-30 | a hit lowers the prop's health by exactly 1; at health ≤ 0 index i leaves both lists, otherwise nothing else changes; the lists stay aligned |
| Props.DamageProp | src/game/props.ts:22-30 | the two lists become exactly what `Damaged` describes |
| Props.FirstPropHit | src/game/props.ts:32-39 | the smallest index whose collider the segment hits, or −1 iff it hits none |
| Props.GetPropHitIndex | src/game/props.ts:32-39 | the loop returns `FirstPropHit` of the current props |
| Combat.DamageAccounting | src/game/combat.ts:10-20 | the shield absorbs min(shield, amount) and stays ≥ 0; health drops by the remainder but not below 0 and never rises; no more than `amount` is lost in total, exactly `amount` when health covers the remainder, and health is untouched when the shield covers all |
| Combat.ApplyPlayerDamage | src/game/combat.ts:10-20 | the new shield and health are those of `AfterDamage` |
| Combat.Advanced | src/game/combat.ts:51-53 | a bullet moves by velocity × delta: its previous position becomes its old position and its age grows by delta |
| Combat.SubsequenceExtend | src/game/combat.ts:47-67 | keeping or dropping the next entry keeps the survivors an order-preserving subsequence |
| Combat.UpdateBullets | src/game/combat.ts:46-67 | the backward splice loop leaves bullets, props and prop colliders exactly as `BulletsAfter` describes |
| Combat.StepBullet | src/game/combat.ts:55-66 | one bullet: a prop hit damages that prop and drops the bullet; otherwise it is dropped iff older than 2.5 or inside an obstacle |
| Combat.BulletsAfterOrder | src/game/combat.ts:46-67 | the surviving bullets are advanced bullets kept in their original order |
| Combat.BulletsAfterAges | src/game/combat.ts:63-66 | no surviving bullet is older than 2.5 |
| Combat.BulletsAfterPropCount | src/game/combat.ts:55-61 | bullets never add props |
| Combat.BulletsAfterWithoutProps | src/game/combat.ts:46-67 | without props, the survivors are exactly the advanced bullets that are not expired and not inside an obstacle |
| Combat.DamagedTotal | src/game/props.ts:22-30 | one prop hit takes exactly 1 from the props' total health and leaves only standing props |
| Combat.BulletsAfterDamageOnce | src/game/combat.ts:55-61 | every unit of prop health lost costs one bullet: health lost plus survivors is at most the number of bullets |
| Combat.AdvancedBolt | src/game/combat.ts:98-100 | a bolt moves by velocity × delta and ages by delta |
| Combat.SegmentHitsAnyCollider | src/game/combat.ts:102-106 | true iff the bolt's step meets a wall, prop or door collider |
| Combat.UpdateEnemyProjectiles | src/game/combat.ts:92-127 | without a camera nothing changes; otherwise bolts, shield and health become what `BoltsAfter` describes |
| Combat.BoltsAfterStep | src/game/combat.ts:107-125 | one bolt: it is dropped if it meets an obstacle or is older than 4; otherwise a hit on the player applies 20 damage once and drops it; otherwise it is kept |
| Combat.BoltsAfterDamage | src/game/combat.ts:92-127 | shield and health never rise and stay ≥ 0, at most 20 is lost per removed bolt, and no surviving bolt is older than 4 |
| Combat.LastStrikeSpec | src/game/combat.ts:132-146 | the inner loop's bullet is the last one (in index order) that strikes the enemy, and −1 iff none does |
| Combat.FindStrike | src/game/combat.ts:132-146 | the backward bullet loop finds `LastStrike` |
| Combat.StrikeEnemyEffect | src/game/combat.ts:152-163 | a struck enemy loses 120 on a headshot and 60 otherwise, gets a 0.15 flash timer, and that bullet alone is removed; the enemy dies iff its health is ≤ 0 |
| Combat.StrikeCounts | src/game/combat.ts:150-163 | an enemy uses up at most one bullet per call, and dies only when struck |
| Combat.HitEnemy | src/game/combat.ts:131-164 | one enemy of the outer loop yields `StrikeEnemy` |
| Combat.HandleBulletHits | src/game/combat.ts:129-166 | enemies, bullets, `remainingEnemies` and score become what `HitsAfter` describes |
| Combat.HitsAfterBookkeeping | src/game/combat.ts:157-162 | each kill adds 25 to the score, `remainingEnemies == enemies.length` (plus any surplus) is preserved, and each enemy uses at most one bullet |
| Combat.HitsAfterKeepsYoung | src/game/combat.ts:134 | bullets younger than 0.02 are never used up |
| Combat.ResetCombat | src/game/combat.ts:190-197 | bullets, enemy projectiles and tracers are empty |
| Combat.BulletStepSurvivor | src/game/combat.ts:55-66 | a surviving bullet is at most 2.5 old, and a bullet never adds props |
| Combat.BulletsAfterStep | src/game/combat.ts:47-66 | one turn of the backward loop: the effect of bullet i − 1 is applied and the walk moves to the bullet before it |
| Combat.StrikeKeepsYoung | src/game/combat.ts:134 | the bullet an enemy uses up is never one younger than 0.02 |
| Combat.HitsAfterStep | src/game/combat.ts:130-164 | one turn of the backward enemy loop: a kill removes the enemy, adds 25 to the score and lowers the remaining count, never below 0 |
| SeededRandom.Rng.constructor | src/game/level.ts:943-944 | the counter starts at `seed >>> 0` and nothing has been drawn |
| SeededRandom.Rng.Next | src/game/level.ts:945-950 | one call appends exactly output number n of the seed's stream (n = draws so far) and keeps the generator valid |
| SeededRandom.StreamNext | src/game/level.ts:943-951 | drawing once more appends the next output to the stream |
| SeededRandom.StreamPrefix | src/game/level.ts:943-951 | later draws never change earlier outputs |
| SeededRandom.Stream | src/game/level.ts:943-951 | the record of n draws has length n |
| SeededRandom.StreamAt | src/game/level.ts:943-951 | entry j of the record of n draws is output j of the seed, for every j < n |
| SeededRandom.PrefixAt | src/game/level.ts:943-951 | entry j of the first n values of a sequence of draws is draw j |
| SeededRandom.PrefixOfPrefix | src/game/level.ts:943-951 | the first m values are the first m of the first n, for m ≤ n |
| SeededRandom.SameSeedSameDraws | src/game/level.ts:943-951 | two generators with the same seed produce the same sequence: the shorter record is a prefix of the longer |
| SeededRandom.FirstDrawsOfSeedOne | src/game/level.ts:945-950 | the first three 32-bit outputs for seed 1 are 0xa087eaf3, 0x00b349c9, 0x8706c4eb |
| SeededRandom.ScaledIndex | src/game/level.ts:953-960 | `Math.floor(rng() * n)` is an index in [0, n) for n ≥ 1 |
| SeededRandom.RangeValue | src/game/level.ts:953-955 | `randRange(rng, min, max)` is an integer in [min, max] when min ≤ max |
| SeededRandom.RandRange | src/game/level.ts:953-955 | it makes exactly one draw, keeps the earlier draws, and returns `RangeValue` of it, within [min, max] |
| SeededRandom.DrawIndex | src/game/level.ts:958-960 | it makes exactly one draw and returns its scaled index, within [0, n) |
| SeededRandom.OutputAfter | src/game/level.ts:946-949 | advancing the counter after n draws and mixing gives output n of the stream |
| SeededRandom.DrawExtends | src/game/level.ts:945-950 | one draw from a valid generator advances the counter to state n + 1 and extends the record by output n |
| Dungeon.IntersectsExistingRoom | src/game/level.ts:1291-1304 | true iff some cell of the room's box padded by one cell is already floor |
| Dungeon.CarveRect | src/game/level.ts:757-761 | exactly the cells of the rectangle become floor; every other cell is unchanged |
| Dungeon.Sign | src/game/level.ts:1318-1319 | `Math.sign`: −1, 0 or 1 as the argument is negative, zero or positive |
| Dungeon.CarveLine | src/game/level.ts:1317-1328 | both endpoints and every cell of the x-then-y walk between them become floor; no other cell changes |
| Dungeon.NewRoom | src/game/level.ts:763-778 | the pushed room has the next id, the drawn rectangle, the centre cell `floor(x + w/2), floor(y + h/2)` with its world centre, and no tag |
| Dungeon.PaddedClearIff | src/game/level.ts:1291-1304 | while the floor is exactly the carved rooms, the padded box of a candidate holds no floor iff the candidate is one cell apart from every room |
| Dungeon.Candidate | src/game/level.ts:750-778 | the room of an attempt's four draws has the given id, sides 4..8, lies one cell off the outer ring, has its centre cell and world centre, and no tag |
| Dungeon.CandidateOf | src/game/level.ts:750-778 | the rectangle of the four `randRange` calls is the candidate of those four draws |
| Dungeon.PlacementSnoc | src/game/level.ts:749-779 | four more draws advance the placement by exactly one attempt |
| Dungeon.PlacementLayout | src/game/level.ts:745-779 | whatever the draws, the placed rooms number at most 12 and at most one per attempt, are numbered 0, 1, … in placement order, have the placement shape and are pairwise one cell apart |
| Dungeon.PlaceAttempt | src/game/level.ts:749-779 | one loop iteration makes exactly four draws and turns the rooms into `PlaceStep` of them, keeping the layout |
| Dungeon.SeparatedFromClear | src/game/level.ts:755-761 | a room placed where the padded box was clear stays at least one cell away from every earlier room |
| Dungeon.PlaceRooms | src/game/level.ts:745-779 | at most 40 attempts of exactly four draws each, fewer than 40 only when 12 rooms were placed; the rooms are exactly `Placement` of the fresh draws, so every candidate one cell apart from all rooms so far is pushed while fewer than 12 are placed, and every other is skipped; the rooms have ids 0, 1, …, sides 4..8, are carved, pairwise one cell apart, the floor is exactly their cells, and all floor is off the outer ring |
| Dungeon.DrawRect | src/game/level.ts:750-753 | the four draws give width, height, x and y in their `randRange` intervals, in that order |
| Dungeon.TryPlace | src/game/level.ts:755-779 | the room list gains the new room, with the next id and the drawn rectangle, iff the padded box held no floor, and is unchanged otherwise; a clear box is the same as the candidate being one cell apart from every room; the layout invariant and "all floor is in a room" are kept |
| Dungeon.PlaceRoom | src/game/level.ts:757-779 | carving a room into a clear padded box keeps every room carved and the rooms pairwise apart |
| Dungeon.CarveBend | src/game/level.ts:1306-1315 | exactly the cells of the L-shaped corridor (either orientation) become floor |
| Dungeon.CarveCorridor | src/game/level.ts:1306-1315 | one draw decides the orientation (`rng() > 0.5` is horizontal first); exactly the corridor's cells become floor, so every new floor cell lies on the corridor; floor never shrinks; all floor stays off the outer ring |
| Dungeon.TurnsDrawnNext | src/game/level.ts:1307 | each orientation is decided by the next draw, in corridor order |
| Dungeon.CorridorInner | src/game/level.ts:1306-1315 | a corridor between two inner cells stays off the outer ring |
| Dungeon.JoinToPrevious | src/game/level.ts:783-787 | one turn of the corridor loop joins room i to room i − 1 with the orientation of the next draw; the earlier corridors stay carved, and every floor cell that was not floor before the loop lies on one of corridors 1 to i |
| Dungeon.CorridorsOnlyNext | src/game/level.ts:783-787 | a turn of the loop that adds floor only on its own corridor keeps "every new floor cell lies on a corridor carved so far" |
| Dungeon.CarveCorridors | src/game/level.ts:783-787 | with n rooms, n − 1 draws decide the orientations; every consecutive pair of centres is joined by its corridor; and every floor cell that was not floor before lies on one of those corridors |
| Dungeon.PickExitRoom | src/game/level.ts:816-825 | the exit room is a room whose Manhattan distance from `rooms[0]` is at least every room's; the last room wins ties with it, otherwise the first room of greatest distance |
| Dungeon.SortedLayout | src/game/level.ts:781 | sorting by centre x keeps the layout and orders the rooms |
| Dungeon.PlaceFallbackRoom | src/game/level.ts:789-814 | the fallback is the room with id 0 at (⌊W/2⌋ − 3, ⌊H/2⌋ − 3), 6 by 6, carved; every new floor cell lies in it |
| Dungeon.ConnectRooms | src/game/level.ts:781-814 | the rooms are exactly the placed ones sorted by centre x (stably), or the fallback room alone when none was placed; one more draw per corridor, after the earlier draws, which stay in place; every consecutive pair of centres is joined by the corridor its draw turns; a cell is floor iff it lies in a room or on one of the corridors (`FloorExactly`) |
| Dungeon.ExactFloor | src/game/level.ts:781-787 | floor that lay inside the rooms, grown only along the corridors, with every room and corridor carved, is exactly the rooms and the corridors |
| Dungeon.FallbackExact | src/game/level.ts:789-814 | with no placed room the fallback room is the whole floor |
| Dungeon.CorridorReached | src/game/level.ts:1306-1328 | every cell of a carved corridor is reached from its first end by the flood fill with nothing blocked: along the first line, then the second |
| Dungeon.RoomReached | src/game/level.ts:757-761 | every cell of a carved room is reached from the room's centre |
| Dungeon.CentresReached | src/game/level.ts:781-787 | along the chain of corridors every room centre is reached from the centre of `rooms[0]` |
| Dungeon.FloorReached | src/game/level.ts:741-814 | every floor cell of the generated grid is reached from the centre of `rooms[0]` |
| Dungeon.FloorJoined | src/game/level.ts:741-814 | rooms, the corridors between consecutive rooms and nothing else make one connected floor: every floor cell reaches every other with nothing blocked |
| Dungeon.CentresJoined | src/game/level.ts:741-814 | on a connected floor every room centre reaches every other room centre |
| Dungeon.GenerateDungeon | src/game/level.ts:741-828 | 1 to 12 rooms after at most 40 attempts; the draws are 4·attempts placement draws, whose `Placement` is the placed list, then one per corridor; the rooms are the placed ones sorted by centre x (the fallback room when none was placed); the grid is well formed, every room carved, the rooms sorted and apart; consecutive rooms are joined by their corridors and a cell is floor iff it lies in a room or on one of those corridors; the floor is connected, so every room centre reaches every other with all doors open; the exit room is a room farthest from `rooms[0]`, the last room when it ties with it, otherwise the first room of greatest distance |
| Dungeon.LayOut | src/game/level.ts:741-814 | the placement, sort and corridors on a fresh all-wall grid: the same facts about draws, placement, sort, corridors and the exact floor as `GenerateDungeon`, before the exit choice |
| Reachability.Neighbours | src/game/level.ts:1221-1226 | four neighbours, tried in the order −x, +x, −y, +y |
| Reachability.NeighboursAreAdjacent | src/game/level.ts:1221-1226 | the four neighbours are exactly the cells one step away |
| Reachability.ClosedHoldsWalks | src/game/level.ts:1219-1242 | a set closed under entering neighbours that holds the start holds the end of every walk from it |
| Reachability.ReachedEnterable | src/game/level.ts:1229-1238 | every reached cell other than the start is in the grid, floor and not blocked |
| Reachability.ReachesStep | src/game/level.ts:1228-1241 | a step from a reached cell to an adjacent enterable cell is reached |
| Reachability.ReachesSelf | src/game/level.ts:1209-1245 | the start cell is always reached |
| Reachability.ReachesTrans | src/game/level.ts:1209-1245 | what is reached from a reached cell is reached from the start |
| Reachability.ReachesBack | src/game/level.ts:1209-1245 | reaching is symmetric when the start may be entered: the walk run backwards is a walk |
| Reachability.ReachesAlongRow | src/game/level.ts:1221-1241 | along a row of enterable cells each end reaches the other |
| Reachability.ReachesAlongColumn | src/game/level.ts:1221-1241 | along a column of enterable cells each end reaches the other |
| Reachability.FloodFillReachable | src/game/level.ts:1209-1245 | a cell is in the result iff it is reached from the start by steps over in-grid, unblocked floor cells (the start itself always) |
| Reachability.VisitNeighbours | src/game/level.ts:1221-1241 | after one dequeued cell, every enterable neighbour is visited, new cells are queued at the back, and every visited cell is reached |
| Reachability.VisitNeighbour | src/game/level.ts:1228-1240 | a neighbour is marked and queued iff it is enterable and new |
| Reachability.FewerUnvisited | src/game/level.ts:1219 | marking new grid cells leaves fewer cells unvisited, so the fill ends |
| Reachability.CanReachAllCells | src/game/level.ts:1196-1207 | true iff every target is reached from the start with the blocked cells closed off |
| Reachability.PickDoorCell | src/game/level.ts:1166-1177 | the first candidate whose door leaves every required cell reachable; None iff there is none |
| Reachability.PickTreasureDoorCell | src/game/level.ts:1179-1194 | the first candidate whose door keeps the lever reachable and cuts the treasure off; None iff there is none |
| Reachability.SortedAppend | src/game/level.ts:1093-1094 | appending a cell later in the scan keeps the list in row-major order |
| Reachability.FindRoomEntrances | src/game/level.ts:1085-1123 | exactly the room's border floor cells with a floor neighbour outside the room, each once, in row-major order |
| Reachability.ScanRow | src/game/level.ts:1094-1120 | one row of the scan appends that row's entrances by x and keeps the earlier ones |
| Reachability.NotSeen | src/game/level.ts:1114 | a cell later in the scan than every seen cell has not been seen |
| Reachability.SeenNext | src/game/level.ts:1114-1116 | marking the current cell keeps every seen cell ahead of the next one |
| Reachability.RowStep | src/game/level.ts:1095-1119 | one cell of the row scan keeps the row's entrances sorted and before the next cell |
| Reachability.CoversNext | src/game/level.ts:1095-1119 | after a cell, every entrance of the row left of the next column is listed |
| Reachability.ScanCell | src/game/level.ts:1096-1118 | a cell is appended once, and only when it is an entrance not yet seen |
| Spawns.PickRandomRoom | src/game/level.ts:957-960 | None without drawing for an empty list; otherwise one draw picks `rooms[floor(draw · n)]` |
| Spawns.TopCount | src/game/level.ts:965 | `max(1, ceil(n/2))`: at least one, never more than n, and about half of n |
| Spawns.PickRoomFromTop | src/game/level.ts:962-966 | None without drawing for an empty list; otherwise one draw picks a room from the first `TopCount(n)` |
| Spawns.FindRoomForCellSpec | src/game/level.ts:968-978 | None iff no room's rectangle holds the cell; otherwise the first room that does |
| Spawns.AllRejectedExtend | src/game/level.ts:1070-1079 | later draws do not change the verdict on earlier attempts |
| Spawns.AllRejectedNext | src/game/level.ts:1076-1079 | a further rejected candidate extends the run of rejected attempts |
| Spawns.CandidateShift | src/game/level.ts:1071-1074 | attempt k reads the two draws at offset 2k |
| Spawns.DrawRoomCell | src/game/level.ts:1071-1074 | two draws, x then y, give a cell inside the room |
| Spawns.GetRandomFloorCellInRoomWithRng | src/game/level.ts:1061-1083 | 1 to 100 attempts of two draws each; every attempt but the last was off the floor or too near the reference; the last candidate is returned iff it is floor; an early stop returns a floor cell at least the required distance away |
| Spawns.FloorCellSearch | src/game/level.ts:1061-1083 | the search as a function of the draws reads two draws per attempt, at most 100 attempts; a returned cell is floor and in the room; a search that stops early returns a floor cell at least the required distance away |
| Spawns.FloorCellSearchStep | src/game/level.ts:1070-1082 | one attempt: a rejected candidate before the 100th leads to the next attempt two draws on; otherwise the search ends and returns the candidate iff it is floor |
| Spawns.RecordsAt | src/game/level.ts:943-951 | an entry of a record that agrees with the draws is that draw |
| Spawns.RecordsPrefix | src/game/level.ts:943-951 | a record that agrees with the draws agrees on each of its prefixes |
| Spawns.StreamRecords | src/game/level.ts:943-951 | the record of a valid generator agrees with its seed's outputs, so every "for all draws that agree" contract below holds of the generator's own outputs |
| Spawns.RecordedSearch | src/game/level.ts:1061-1083 | a recorded search (its rejected attempts and the cell it returned) is `FloorCellSearch` of any draws that agree with the record |
| Spawns.SearchFloorCell | src/game/level.ts:1061-1083 | the cell found and the draws it used are exactly `FloorCellSearch` of any draws that agree with the record |
| Spawns.ExcludingMembers | src/game/level.ts:837 | a room is kept iff it is in the list and its id is not excluded |
| Spawns.PickKeyCell | src/game/level.ts:830-847 | the key room is a far candidate when there is one, else a candidate, else the start room; the cell is a floor cell of that room or its centre |
| Spawns.EntranceCount | src/game/level.ts:1002-1004 | a room has at most one entrance cell iff it is a leaf |
| Spawns.LeafRooms | src/game/level.ts:1002-1004 | exactly the leaf rooms, in order |
| Spawns.Retag | src/game/level.ts:988-1014 | one tagged room per position of the input |
| Spawns.TagChoiceSpec | src/game/level.ts:991-1014 | treasure, trap and armory rooms are never start, exit or key room, and no two of them are the same room |
| Spawns.RetagSpec | src/game/level.ts:988-1014 | no tag is given twice, and nothing about a room but its tag changes |
| Spawns.FromTopMember | src/game/level.ts:962-966 | a room picked from a pool is in the pool |
| Spawns.AssignRoomTags | src/game/level.ts:980-1014 | old tags are cleared; treasure comes from the top half of the leaf rooms (all candidates if none) sorted far-first, trap and armory from the top half of what remains |
| Spawns.FarthestFromSpec | src/game/level.ts:1031-1036 | the reduce result is at least as far as every room, and is the first room strictly farther than its predecessors |
| Spawns.FarthestSpec | src/game/level.ts:1031-1036 | the farthest room is a candidate, no candidate is farther, and it is the first of greatest distance |
| Spawns.PickLeverCell | src/game/level.ts:1016-1045 | with a treasure room the lever room is the candidate farthest from it; otherwise one draw picks a candidate; the start room when there are none; the cell is a floor cell of that room or its centre |
| Spawns.CreateTreasureSpawn | src/game/level.ts:1047-1059 | the first draw picks medkit, shield or scanner; the cell is a floor cell of the room or its centre |
| SpawnLists.IncreasingBound | src/game/level.ts:866 | strictly increasing room indices below n number at most n |
| SpawnLists.IncreasingSnoc | src/game/level.ts:866-870 | a later room index keeps the picks increasing |
| SpawnLists.PlacedSnoc | src/game/level.ts:868-870 | a spawn on a floor cell of its room keeps every spawn in its room |
| SpawnLists.RangedCount | src/game/level.ts:865 | `max(1, round(0.3 · count))`, rounding half up |
| SpawnLists.DrawEnemy | src/game/level.ts:867-870 | the search of room slot i gives a floor cell of that room or none, and advances `EnemySlots` by exactly that slot |
| SpawnLists.TryEnemy | src/game/level.ts:866-870 | one room slot keeps the spawns placed, increasing and of the right kind, and advances `EnemySlots` by that slot |
| SpawnLists.SpawnInRooms | src/game/level.ts:856-871 | each accepted room slot i (i < count and i < rooms) gives one spawn on a floor cell of room i; the first `RangedCount(count)` slots are ranged, the rest melee; for all draws that agree with the record, the spawns and the draws used are exactly `EnemySlots` of them |
| SpawnLists.DrawTrap | src/game/level.ts:874-879 | the search of trap room i gives a floor cell of that room or none, and advances `TrapSlots` by that room |
| SpawnLists.TryTrap | src/game/level.ts:874-879 | one trap room keeps the melee spawns placed and increasing, and advances `TrapSlots` by that room |
| SpawnLists.SpawnInTraps | src/game/level.ts:873-880 | one melee spawn per trap room at most, on a floor cell of that room, in trap order; for all draws that agree with the record, the spawns and the draws used are exactly `TrapSlots` of them |
| SpawnLists.GenerateEnemySpawns | src/game/level.ts:849-883 | rooms at least 10 from the start (all rooms if none), sorted far-first, then trap rooms of the sorted list; the room spawns come first; the sort reorders the caller's list when no room is far; for all draws that agree with the record, the spawns and the draws used are exactly `EnemySpawns` of them |
| SpawnLists.CountOfSnoc | src/game/level.ts:901-909 | one more pick counts once more for its room |
| SpawnLists.CountOfBelow | src/game/level.ts:896-897 | a room after every pick has none |
| SpawnLists.TakenCells | src/game/level.ts:904-906 | the `occupied` test read off the list agrees with the set of cells taken |
| SpawnLists.PropTryAccepted | src/game/level.ts:902-908 | a try whose search finds a free cell adds one prop there, its kind read from the next draw |
| SpawnLists.PropTryRejected | src/game/level.ts:902-908 | a try whose search finds no free cell adds nothing and uses only the search's draws |
| SpawnLists.PropAcceptedRecorded | src/game/level.ts:902-908 | a recorded accepted try is `PropTry` of any draws that agree with the record |
| SpawnLists.PropRejectedRecorded | src/game/level.ts:902-908 | a recorded rejected try is `PropTry` of any draws that agree with the record |
| SpawnLists.PropsSnoc | src/game/level.ts:904-908 | a prop on a fresh floor cell of its room keeps the prop facts |
| SpawnLists.TryProp | src/game/level.ts:902-908 | one try adds at most one prop, to this room only, on a fresh floor cell and of one of the four kinds; for all draws that agree with the record, the props and the draws used are exactly `PropTry` of them |
| SpawnLists.DrawProp | src/game/level.ts:902-908 | the prop of one try, if any, is on a fresh floor cell of the room and of one of the four kinds, and is exactly what `PropTry` adds |
| SpawnLists.TryProps | src/game/level.ts:901-909 | `tries` more tries add at most `tries` props to this room only and are exactly `PropTries` |
| SpawnLists.SpawnPropsInRoom | src/game/level.ts:898-909 | `randRange(min, max)` tries add at most `PropMax` props to this room only; for all draws that agree with the record, the props and the draws used are exactly `RoomProps` of them |
| SpawnLists.VisitPropRoom | src/game/level.ts:897-910 | one room of the room loop keeps every room within its cap and advances `PropRooms` by that room; start and exit rooms draw nothing |
| SpawnLists.GeneratePropSpawns | src/game/level.ts:885-913 | every prop is on a distinct floor cell of a room that is neither start nor exit, in room order, of one of the four kinds, at most 4 per armory and 3 per other room; for all draws that agree with the record, the props and the draws used are exactly `PropSpawns` of them |
| SpawnLists.PotionsSnoc | src/game/level.ts:932-935 | a potion on a fresh floor cell of its source room keeps the potion facts |
| SpawnLists.PotionTryAccepted | src/game/level.ts:929-935 | a try whose search in the drawn room finds a cell that is neither the key cell nor taken adds one potion there |
| SpawnLists.PotionTryRejected | src/game/level.ts:929-935 | any other try adds nothing and uses only the room draw and the search's draws |
| SpawnLists.PotionRecorded | src/game/level.ts:929-935 | a recorded try (room draw, then search) is `PotionTry` of any draws that agree with the record |
| SpawnLists.DrawPotion | src/game/level.ts:929-935 | the room is a candidate (the start room when there are none); a potion, if any, is on a fresh floor cell of it, and is exactly what `PotionTry` adds |
| SpawnLists.TryPotion | src/game/level.ts:929-935 | one try adds at most one potion, on a fresh floor cell of a candidate room other than the key cell; for all draws that agree with the record, the potions and the draws used are exactly `PotionTry` of them |
| SpawnLists.TryPotions | src/game/level.ts:928-936 | `tries` more tries add at most `tries` potions, keep the potion facts and are exactly `PotionTries` |
| SpawnLists.GeneratePotionSpawns | src/game/level.ts:915-939 | at most `randRange(2, 4)` potions from the first draw, on distinct floor cells other than the key cell, each inside a non-start, non-exit room (the start room when there is none); for all draws that agree with the record, the potions and the draws used are exactly `PotionSpawns` of them |
| LevelGen.FirstTaggedSpec | src/game/level.ts:27 | None iff no room has the tag; otherwise the first room that has it |
| LevelGen.RetagInGrid | src/game/level.ts:26 | tagging rooms keeps every room inside the grid |
| LevelGen.RetagFarthest | src/game/level.ts:26 | tagging rooms keeps the exit room a room farthest from the start |
| LevelGen.LaidOutInGrid | src/game/level.ts:22 | the generated rooms lie inside the grid |
| LevelGen.LaidOutCentres | src/game/level.ts:22 | the generated rooms' centre cells lie inside the grid |
| LevelGen.PermutedInGrid | src/game/level.ts:28-34 | reordering the rooms keeps them inside the grid |
| LevelGen.PermutedFarthest | src/game/level.ts:28-34 | reordering the rooms keeps the exit room a farthest one |
| LevelGen.PermutedTagged | src/game/level.ts:28-34 | reordering the rooms does not change whether some room has a tag |
| LevelGen.LayOutLevel | src/game/level.ts:21-27 | the dungeon, the start room `rooms[0]`, the key cell, the key room, the tags and the treasure room, in the source's draw order; 1 to 12 rooms in the grid with the exit room farthest from the start; the floor is connected, and the start centre, the exit centre, the key cell and every room centre are floor |
| LevelGen.TagRooms | src/game/level.ts:23-27 | on a dungeon whose exit is farthest from its first room: the start room is `rooms[0]`, the rooms stay in the grid with the exit farthest from the start, the treasure room is the first room tagged treasure, and the key cell, the start and exit centres and every room centre are floor |
| LevelGen.PlaceKey | src/game/level.ts:24-25 | the key cell is a floor cell and the key room is the room holding it |
| LevelGen.PickedFloor | src/game/level.ts:24 | a pick among rooms with floor centres, or the start room when there is no candidate, lands on a floor cell |
| LevelGen.Populate | src/game/level.ts:28-61 | enemy, prop and potion spawns on floor cells, props and potions each on distinct cells, at most 4 potions and none on the key cell; a treasure spawn iff there is a treasure room; the lever cell and the treasure cell are floor |
| LevelGen.PlaceObjectives | src/game/level.ts:50-61 | the lever, then the treasure iff there is a treasure room, its kind one of the three, both on floor cells |
| LevelGen.CreateLevelState | src/game/level.ts:19-79 | a fresh level from the seed: every spawn fact above; no fog lifted; the key, key-seen, portal-seen and lever flags all down; the floor is connected, and with all doors open the key cell, the lever cell, the exit centre and any treasure cell are reached from the start centre |
| Sorting.Insert | src/game/level.ts:781 | one more entry than the input |
| Sorting.SortBy | src/game/level.ts:781 | as many entries as the input |
| Sorting.InsertSorted | src/game/level.ts:781 | inserting into a sorted list keeps it sorted by key |
| Sorting.InsertKeys | src/game/level.ts:781 | every entry of an insertion is the new entry or an old one |
| Sorting.SortBySorted | src/game/level.ts:781 | `Array.prototype.sort` with a key comparator orders by ascending key |
| Sorting.InsertPermutation | src/game/level.ts:781 | an insertion adds exactly the new entry |
| Sorting.SortByPermutation | src/game/level.ts:781 | the sort is a permutation of its input |
| Sorting.InsertWithKey | src/game/level.ts:781 | insertion keeps the order of equal-key entries, with the new entry first among them |
| Sorting.SortByStable | src/game/level.ts:859-862 | the sort is stable, as `Array.prototype.sort` is: entries with equal keys keep their input order |
| Sorting.SortByMembers | src/game/level.ts:997-1000 | the sort keeps exactly the input's entries |
| Sorting.InsertPairwise | src/game/level.ts:781 | insertion keeps a relation that holds between every two entries |
| Sorting.SortByPairwise | src/game/level.ts:781 | the sort keeps a relation that holds between every two entries (rooms stay apart) |
| Sorting.Filter | src/game/level.ts:837 | `Array.prototype.filter`: never longer than the input |
| Sorting.FilterMembers | src/game/level.ts:837 | the filter keeps exactly the entries satisfying the predicate |
| Sorting.FilterAll | src/game/level.ts:855-859 | the filter returns the input when every entry satisfies the predicate |
| Sorting.FilterPairwise | src/game/level.ts:1002-1004 | a relation between every two entries survives the filter |
| Sorting.FilterSnoc | src/game/level.ts:1002-1004 | filtering a list with one more entry appends that entry iff it satisfies the predicate |
| Objectives.Replenished | src/game/level.ts:205 | `min(100, v + amount)`: never above 100, never below a value at most 100 |
| Objectives.UpdateKeyPickup | src/game/level.ts:160-180 | with a level, a key mesh, no key yet, a camera and the key mesh, at its current bobbing height in [1.05, 1.35], closer than 1.4 in 3D, the key is held and seen and its mesh gone; otherwise nothing changes; fog, portal and lever untouched; objective consistency kept |
| Objectives.UpdatePotionPickup | src/game/level.ts:182-217 | without a camera nothing changes; otherwise health and potions are as the backward walk `Drink` gives |
| Objectives.DrinkHealth | src/game/level.ts:187-215 | at full health nothing is drunk; otherwise each drunk potion heals 25, capped at 100 |
| Objectives.DrinkOrder | src/game/level.ts:214 | the potions left keep their order |
| Objectives.DrinkKeepsFar | src/game/level.ts:193 | a potion 1.2 or farther (flat distance) is kept |
| Objectives.DrinkTakesNear | src/game/level.ts:193-214 | below full health, a potion in reach is drunk |
| Objectives.LastInReach | src/game/level.ts:224-230 | an index of the list or −1 |
| Objectives.LastInReachSpec | src/game/level.ts:224-230 | −1 iff no pickup is in reach; otherwise a pickup in reach with none in reach after it |
| Objectives.LastInReachAt | src/game/level.ts:224-230 | the last pickup in reach is the one the backward walk meets first |
| Objectives.UpdateTreasurePickup | src/game/level.ts:219-253 | with empty hands, the last pickup in reach is taken into the hands and removed from the list; otherwise nothing changes |
| Objectives.UpdateLeverInteraction | src/game/level.ts:255-278 | with a level, a camera and an unused lever closer than 1.3, the lever is activated and removed; otherwise nothing changes; the other flags and the fog untouched |
| Objectives.RemoveDoor | src/game/level.ts:447-452 | the door at the index is spliced out of the doors and its collider out of the colliders; the two lists stay index-aligned |
| Objectives.UpdateDoorInteractions | src/game/level.ts:280-311 | without a level or camera nothing changes; otherwise the doors left are those that do not open and the hint is the backward walk's first locked door in range |
| Objectives.SpliceAt | src/game/level.ts:450-451 | splicing out the entry between a and b leaves a + b |
| Objectives.WalkDoorsAt | src/game/level.ts:287-308 | one door of the backward walk: kept unless it opens, and the hint is the later door's or this door's lock text |
| Objectives.KeptDoorsSpec | src/game/level.ts:287-308 | a door is left iff it was there and is not an unlocked door closer than 1.8 |
| Objectives.DoorHintSpec | src/game/level.ts:287-310 | the hint is hidden iff no locked door is within 2.4; otherwise it is the lock text of such a door |
| Objectives.RefreshDiscoveryFlags | src/game/level.ts:1144-1151 | the key and portal flags are raised once their cells are discovered and never lowered |
| Objectives.UpdateDiscovery | src/game/level.ts:356-371 | without a camera nothing changes; otherwise exactly the in-grid cells within 4 of the camera's cell on both axes are added to the fog map, and the flags are refreshed |
| Objectives.RevealTreasureArea | src/game/level.ts:1125-1142 | with no treasure room nothing changes; otherwise exactly the floor cells of the treasure room's box grown by one cell, clamped to the grid, are added, and the flags are refreshed |
| Objectives.UseHeldItem | src/game/level.ts:313-354 | a medkit heals 40 and a shield charges 40, both capped at 100; a scanner reveals the treasure area; the hands are empty afterwards |
| Objectives.Missing | src/game/level.ts:132-135 | nothing is missing iff no enemy remains and the key is held; each condition is listed iff it is open |
| Objectives.PortalGate | src/game/level.ts:137-157 | the level ends iff no enemy remains, the key is held and the distance is below 3; the hint shows iff the distance is below 4 and something is missing |
| Objectives.PortalHintText | src/game/level.ts:134-139 | with both missing, the hint reads enemies first, then the key, joined by " + " |
| Objectives.CheckPortal | src/game/level.ts:123-158 | without level, portal or camera, or during a transition, nothing changes; otherwise the hint and the transition are as `PortalOutcome` gives, and the controls stop on a transition |
| Objectives.ConsumableLabel | src/game/level.ts:1153-1164 | a capitalised, non-empty name |
| Objectives.LabelsDistinct | src/game/level.ts:1153-1164 | two consumables share a label iff they are the same |
| Objectives.ResetGame | src/game/level.ts:98-121 | health 100, shield and score 0, empty hands, timers 0, no combat objects; with a level, the four flags down, a fresh undiscovered fog map and no transition |
| Objectives.ResetLevelFlags | src/game/level.ts:112-116 | the four flags down and a fresh fog map with nothing discovered |
| State.LevelState.constructor | src/game/level.ts:63-78 | the generated layout is stored, and the key, key-seen, portal-seen and lever flags start down |
| State.Session.constructor | src/game/state.ts:112-199 | no level, camera or scene objects, level 1, no transition, empty lists, health 100, score 0 and every timer 0 |
| Pathfinding.IdxRoundTrip | src/game/enemies.ts:366-367 | a cell's flat index `y · width + x` is in the arrays and `%` / `floor(/)` give the cell back |
| Pathfinding.IdxInjective | src/game/enemies.ts:388-392 | two grid cells with the same flat index are the same cell |
| Pathfinding.Directions | src/game/enemies.ts:372-377 | four directions, tried as +x, −x, +y, −y, each one step away |
| Pathfinding.DirectionsClose | src/game/enemies.ts:383-393 | trying the four directions leaves no enterable neighbour of the cell unseen |
| Pathfinding.WalkInit | src/game/enemies.ts:383-393 | a walk without its last cell is a walk to the cell before it, one step away |
| Pathfinding.MirrorPush | src/game/enemies.ts:390-392 | marking a neighbour in `visited` and `prev` mirrors seeing it from the current cell |
| Pathfinding.HeadLeast | src/game/enemies.ts:380 | the head of the queue has the least distance of the queue |
| Pathfinding.StepFromDone | src/game/enemies.ts:379-394 | a walk not longer than the level steps from a cell already expanded |
| Pathfinding.ClosedNeighbour | src/game/enemies.ts:383-393 | every enterable neighbour of an expanded cell is seen |
| Pathfinding.LevelUp | src/game/enemies.ts:379-380 | the head's distance is the level or one more, and every cell nearer than it is seen |
| Pathfinding.Dequeue | src/game/enemies.ts:380 | taking off the head keeps the breadth-first invariant while the head is expanded |
| Pathfinding.NewCellMinimal | src/game/enemies.ts:389-392 | a cell first seen from a cell at level d has no walk shorter than d + 1 |
| Pathfinding.PushTree | src/game/enemies.ts:390-392 | seeing a new neighbour keeps every distance minimal and every parent one step nearer |
| Pathfinding.PushQueued | src/game/enemies.ts:392 | the new cell goes to the back of the queue, which stays ordered by distance |
| Pathfinding.PushClosed | src/game/enemies.ts:390-392 | seeing a new cell keeps the expanded cells closed |
| Pathfinding.PushKeeps | src/game/enemies.ts:390-392 | seeing a new enterable neighbour keeps the expansion invariant |
| Pathfinding.Visit | src/game/enemies.ts:384-392 | a neighbour outside the grid, a wall or seen is skipped; every other is marked, given its parent and queued |
| Pathfinding.Mark | src/game/enemies.ts:390-391 | the arrays record the neighbour as seen from the current cell |
| Pathfinding.Expand | src/game/enemies.ts:383-393 | after the four directions the breadth-first invariant holds again |
| Pathfinding.TrailStep | src/game/enemies.ts:400-405 | one step back along `prev` extends the path read so far |
| Pathfinding.InitialBfs | src/game/enemies.ts:369-370 | the start alone, at distance 0 and queued, satisfies the invariant |
| Pathfinding.Explore | src/game/enemies.ts:363-394 | the arrays record a tree of parents; the goal, when seen, has no shorter walk than its distance; the goal unseen means it is not reachable |
| Pathfinding.TrailEnd | src/game/enemies.ts:398-406 | a trail read back to the start is empty iff start and goal coincide, has the goal's distance as length, ends at the goal and omits the start |
| Pathfinding.ReadBack | src/game/enemies.ts:396-406 | the path read back along `prev` is a floor walk from the start to the goal, without the start, of the goal's distance |
| Pathfinding.FindPath | src/game/enemies.ts:356-407 | empty iff start or goal is not floor, they coincide, or the goal is not reachable; otherwise a shortest floor walk from start to goal without its first cell |
| Enemies.CreateEnemy | src/game/enemies.ts:276-295 | a fresh idle enemy at the position with 100 health, no path, no target and zero timers; a ranged enemy's first shoot timer lies below its cooldown |
| Enemies.KindOf | src/game/enemies.ts:41 | ranged iff the spawn's tag is "ranged" |
| Enemies.SpawnEnemies | src/game/enemies.ts:35-54 | the old enemies are replaced by one fresh idle enemy per spawn, at the centre of its cell, and the remaining count is their number |
| Enemies.ClearEnemies | src/game/enemies.ts:56-60 | no enemies and a remaining count of 0 |
| Enemies.FloorWaypointsSpec | src/game/enemies.ts:243-254 | a waypoint is kept iff it is a candidate over a floor cell, and the kept ones keep their order |
| Enemies.GeneratePatrolWaypoints | src/game/enemies.ts:237-256 | exactly the candidate points of the circle that stand over floor cells, in order |
| Enemies.UpdateEnemy | src/game/enemies.ts:69-233 | one enemy's frame: the enemy after the frame as `EnemyAfter` defines it, kind and health kept, a chasing melee enemy's new path a `findPath` result, and a bolt fired exactly when `Fires` says |
| Enemies.TouchFlags | src/game/enemies.ts:223 | one flag per enemy, set iff that enemy is within 1.2 (flat distance) of the camera |
| Enemies.FlagsStep | src/game/enemies.ts:68 | the flags of one more enemy append that enemy's flag |
| Enemies.StepEnemy | src/game/enemies.ts:69-233 | one turn of the enemy loop: the enemy advanced, contact damage and the vignette updated and its bolt, if any, appended |
| Enemies.AdvancedExtend | src/game/enemies.ts:68 | one more advanced enemy extends the list of advanced enemies |
| Enemies.Contact | src/game/enemies.ts:223-226 | a touching enemy drains `30 · delta` health, stopping at 0, and restarts the damage vignette at 0.3 |
| Enemies.DrainedStep | src/game/enemies.ts:223-226 | one more enemy drains once more iff it touches |
| Enemies.VolleyStep | src/game/enemies.ts:79-83 | the bolts of one more enemy append that enemy's bolt iff it fires |
| Enemies.Bolt | src/game/combat.ts:70-90 | a new bolt has not moved, has age 0 and starts 1.2 above the enemy |
| Enemies.UpdateEnemies | src/game/enemies.ts:62-235 | without camera or level nothing changes; otherwise every enemy is advanced, health is drained once per touching enemy, the bolts of the firing enemies are appended in order and the vignette restarts iff some enemy touches |
| Enemies.UpdateEach | src/game/enemies.ts:68-234 | the enemy loop: the same frame update for every enemy in order |
| Enemies.PerceivedKept | src/game/enemies.ts:108-147 | perception keeps the enemy's invariants |
| Enemies.PatrollingKept | src/game/enemies.ts:152-168 | patrolling keeps the enemy's invariants |
| Enemies.PatrolRule | src/game/enemies.ts:152-168 | with waypoints, an enemy closer than 0.5 to its waypoint moves on to the next one (the first after the last) and stays put; otherwise it steps toward the waypoint at 1.5 per second, the waypoint unchanged; without waypoints nothing changes |
| Enemies.FollowingKept | src/game/enemies.ts:182-196 | following the path keeps the enemy's invariants |
| Enemies.MovedKept | src/game/enemies.ts:149-213 | the movement switch keeps the invariants, the kind and the health |
| Enemies.EnemyAfterKept | src/game/enemies.ts:69-233 | a whole frame keeps the invariants, the kind and the health |
| Enemies.PerceptionTable | src/game/enemies.ts:108-147 | the state machine: without a sight check only the search timer advances; seeing the player means CHASE; not seeing it, IDLE patrols from waypoint 0, PATROL idles after 10000, CHASE searches from the camera position, SEARCH patrols after 8000 |
| Enemies.SearchFollowsChase | src/game/enemies.ts:112-144 | a search only starts from a chase that lost sight of the player, and a chase ends only that way |
| Enemies.RepathRule | src/game/enemies.ts:170-196 | with no target, a new player cell or the path older than 800, the enemy takes the new path from index 0 (1 after one step) and records time and cell; otherwise the path is kept and the index moves on by at most one, never past the end |
| Enemies.FollowingFields | src/game/enemies.ts:182-196 | following the path keeps the path, its time and target, and moves the index by at most one, never past the end |
| Enemies.SearchRule | src/game/enemies.ts:198-211 | an enemy with a last-seen position farther than 0.5 steps toward it at 1.8 per second; otherwise it stays put; nothing but the position changes |
| Enemies.NeedsPathBeforePerception | src/game/enemies.ts:108-175 | perception does not change whether the enemy re-paths |
| Enemies.ShootTimer | src/game/enemies.ts:76-84 | a ranged enemy fires iff it sees the player within 18 and its counted-down timer has run out; firing resets the timer to 1.2, otherwise it stays counted down, never below 0 |
| Enemies.NoRefireWithinCooldown | src/game/enemies.ts:78-83 | after firing, frames whose deltas sum below 1.2 never fire, and the timer is 1.2 minus that sum |
| Enemies.SumDeltaPrefix | src/game/enemies.ts:78 | with non-negative deltas the elapsed time only grows |
| Enemies.ReplayKept | src/game/enemies.ts:76-106 | frames of a ranged enemy keep its invariants and its kind |
| Enemies.DrainedSpec | src/game/enemies.ts:223-224 | with k touching enemies health ends at `max(0, h − k · 30 · delta)` |
| Enemies.TimesProduct | src/game/enemies.ts:223-224 | repeated draining by `d`, k times, is draining by `k · d` |
| Enemies.DrainedTimes | src/game/enemies.ts:223-224 | the drain of a frame is the drain of its touching enemies' count |
| Enemies.DrainedBounds | src/game/enemies.ts:223-224 | contact damage never raises health nor takes it below 0, and lowers it only if some enemy touches |
| Enemies.VolleyFromRanged | src/game/enemies.ts:76-84 | at most one bolt per enemy, and none from melee enemies |

## Left out

- Rendering, audio and the DOM are not modelled. This covers every THREE mesh, light and scene call, the Web Audio cues, the HUD text and the `setTimeout` calls that hide notices. A hint the player would see is returned as a `Hint` value instead of being written to an element.
- Scene construction is not modelled: `applyLevelState`, `spawnDoors`, `spawnLever`, `spawnTreasurePickups`, `spawnPotions`, `spawnKeyMesh`, `createDoor`'s mesh, `createExitPortal`, `refreshTorchLights`, the `clear*` helpers of `level.ts`, `createEnemyMesh`, `replaceEnemyMesh`, `initEnemyAssets` (a network load), `assignHeadshotData` and `applyEnemyHitFlash`. The session lists these helpers fill (doors, lever, pickups, props, enemies and their colliders) are inputs of the operations that read them; nothing in the model builds them from a level's spawn lists.
- ResetGame: does not model the `applyLevelState` call (`level.ts:119`, body at `level.ts:676-735`). In the source that call rebuilds the session's `doors` and `doorColliders`, the `lever`, `treasurePickups`, `potions`, `props` and `propColliders`, the `enemies` and `remainingEnemies`, the key mesh, the wall colliders, the exit portal, and the camera position and velocity. The model leaves all of these unchanged.
- `initLevel` and `nextLevel` (`level.ts:81-96`) are not modelled. They chain `createLevelState`, `resetCombat` and the scene rebuild.
- `fadeIn`, `fadeOut` and `updateGameOver` (`level.ts:373-397`) are not modelled. They set overlay styles and button text, and on game over they release the mouse lock and the controls; all of this is DOM and input wiring.
- `fireBullet` (`combat.ts:22-44`) is not modelled. It reads the camera's view direction, adds a `Math.random` recoil, and starts the muzzle flash and the tracer, all presentation. Bullets enter the model as values of the `bullets` list.
- `Math.random` is replaced by parameters:
  - the level seed is a parameter of `LevelGen.CreateLevelState`;
  - a ranged enemy's starting shoot phase is a parameter of `Enemies.CreateEnemy`;
  - the draws of `getRandomFloorCell` and `getRandomFloorCellInRoom` are a given function from draw number to a value in [0, 1).
- Float geometry is given as functions rather than computed:
  - `hasLineOfSight` (it can divide by zero);
  - the candidate waypoints on the patrol circle (cos/sin);
  - one step of normalised movement, including its `resolveCollisions`;
  - the unit aim vector of a bolt.
  These are the fields of `Enemies.Senses`. The model does state that waypoints are filtered to floor cells.
- The key mesh's height is a parameter of `Objectives.UpdateKeyPickup`, in [1.05, 1.35]. `effects.ts:74` sets it every frame to `1.2 + sin(time * 0.004) * 0.15` from the clock, which the model does not have.
- The raycast of `handleBulletHits` (`combat.ts:136-150`) is a given hit-and-headshot function. A prop's collider, which THREE measures from its mesh, is a given bounds function.
- Numbers are mathematical reals, not doubles. Distances are compared squared, which is exact over the reals, and rounding is not modelled.
- `SeededRandom.Rng` keeps mulberry32's counter as a `bv32`. In JavaScript `t` is a double that grows without wrapping; only its low 32 bits reach `Math.imul`, `^` and `>>>`. The two agree while `t` stays below 2^53, which covers roughly the first 4.9 million draws of a seed.
- `cellKey` is not modelled. Sets of string keys are sets of `GridPoint` values.
- The alias `state.discovered = levelState.discovered`, which only the minimap reads, is not modelled.
- `Spawns.AssignRoomTags` returns the retagged room list instead of writing `room.tag` on shared room objects. Start, exit and key rooms are matched by `id`, so aliasing between room objects is not captured.
- `Enemies.UpdateEach` builds the updated enemy list and stores it after the loop. The source updates each enemy object in place. Nothing else reads the list during the loop, so only the aliasing is lost.
- `Enemies.UpdateEnemies` treats every enemy in the list as in the scene. The `mesh.parent` guard (`enemies.ts:69`) is not modelled.
- `Enemies.UpdateEnemies` treats the bolt geometry and material as loaded. `spawnEnemyProjectile`'s early return (`combat.ts:73`) is not modelled.
- `Enemies.UpdateEnemies` requires `delta ≥ 0`, because frame times never run backwards. Its turn-to-face (`lookAt`), animation mixer and search-spin rotation are visuals and are not modelled.
- `Combat.HandleBulletHits` does not model the hitmarker timer that `triggerHitmarker` sets on a hit, which is HUD feedback.
- `Combat.UpdateEnemyProjectiles` does not model the damage-vignette timer that `triggerDamageFeedback` sets on a hit, which is HUD feedback. The contact damage of `Enemies.UpdateEnemies` does model it.
- `Collision.SegmentHitsSphereExact` is stated for segments of non-zero length. For a zero-length segment the definition is itself the point-distance test of `collision.ts:77`.
- `Collision.ClipExact` and `Collision.SegmentHitsBoxExact` are stated for direction components that are 0 or at least 1e-6 in magnitude. For smaller non-zero components the source's parallel test is an approximation, and no exact statement is made.
- `props.ts` has its own `segmentAabbIntersect` (`props.ts:92-121`), which matches `collision.ts:38-67` line for line. `Props.GetPropHitIndex` uses `Collision.SegmentAabbIntersect` for it.
