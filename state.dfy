/** Declarations shared by the whole simulation: the configuration constants,
    the value types of the grid, rooms, spawns and actors, and the two objects
    that the simulation updates in place, the level and the session. */
module State {

  // ---------------------------------------------------------------------
  // Configuration (the `config` object)
  // ---------------------------------------------------------------------

  const GridWidth: int := 41
  const GridHeight: int := 41
  const CellSize: real := 2.0
  const WallHeight: real := 4.0
  const BulletSpeed: real := 28.0
  const BulletDamage: int := 60
  const HeadshotDamage: int := 120

  datatype Option<T> = None | Some(value: T)

  /** `Math.min` and `Math.max` on numbers. */
  function MinReal(a: real, b: real): real
  {
    if a <= b then a else b
  }

  function MaxReal(a: real, b: real): real
  {
    if a >= b then a else b
  }

  // ---------------------------------------------------------------------
  // Grid
  // ---------------------------------------------------------------------

  datatype GridPoint = GridPoint(x: int, y: int)

  /** A grid cell: 0 is floor and 1 is wall in the source. */
  datatype Cell = Floor | Wall

  /** The level grid, indexed `grid[y][x]`. */
  type Grid = seq<seq<Cell>>

  /** A grid of the configured size, `GridHeight` rows of `GridWidth` cells. */
  predicate WellFormed(g: Grid)
  {
    |g| == GridHeight && forall y :: 0 <= y < |g| ==> |g[y]| == GridWidth
  }

  predicate InBounds(c: GridPoint)
  {
    0 <= c.x < GridWidth && 0 <= c.y < GridHeight
  }

  /** `grid[c.y]?.[c.x] === 0`: a cell outside the grid is never floor. */
  predicate IsFloor(g: Grid, c: GridPoint)
  {
    0 <= c.y < |g| && 0 <= c.x < |g[c.y]| && g[c.y][c.x] == Floor
  }

  // ---------------------------------------------------------------------
  // Geometry
  // ---------------------------------------------------------------------

  datatype Vec3 = Vec3(x: real, y: real, z: real)

  /** An axis-aligned box on the XZ plane. */
  datatype Aabb = Aabb(minX: real, maxX: real, minZ: real, maxZ: real)

  // ---------------------------------------------------------------------
  // Level layout
  // ---------------------------------------------------------------------

  datatype RoomTag = Untagged | Treasure | Trap | Armory

  /** A rectangular room of the grid. `centerX`/`centerZ` are the world
      position of `centerCell`. Rooms are told apart by `id`. */
  datatype Room = Room(
    id: int,
    x: int, y: int, w: int, h: int,
    centerX: real, centerZ: real,
    centerCell: GridPoint,
    tag: RoomTag)

  predicate InRoom(r: Room, c: GridPoint)
  {
    r.x <= c.x < r.x + r.w && r.y <= c.y < r.y + r.h
  }

  datatype SpawnInfo = SpawnInfo(cell: GridPoint, kind: string)

  datatype Consumable = Medkit | Shield | Scanner

  datatype TreasureSpawn = TreasureSpawn(cell: GridPoint, kind: Consumable)

  // ---------------------------------------------------------------------
  // Actors and pickups (their meshes belong to the presentation layer)
  // ---------------------------------------------------------------------

  datatype DoorKind = ExitDoor | TreasureDoor

  datatype Door = Door(collider: Aabb, cell: GridPoint, kind: DoorKind, isLocked: bool)

  datatype Lever = Lever(cell: GridPoint, isActivated: bool)

  datatype Potion = Potion(cell: GridPoint)

  datatype TreasurePickup = TreasurePickup(cell: GridPoint, kind: Consumable)

  datatype Prop = Prop(collider: Aabb, health: int)

  /** A player bullet: current and previous position, velocity and age. */
  datatype Bullet = Bullet(pos: Vec3, prev: Vec3, velocity: Vec3, age: real)

  datatype EnemyProjectile = EnemyProjectile(pos: Vec3, prev: Vec3, velocity: Vec3, age: real)

  datatype Tracer = Tracer(life: real)

  datatype EnemyKind = Melee | Ranged

  /** The melee behaviour states IDLE, PATROL, CHASE and SEARCH. */
  datatype EnemyMode = Idle | Patrol | Chase | Search

  /** An enemy; `pos` is the position of its mesh. Times are the
      milliseconds of the frame clock, `searchTimer` accumulates
      milliseconds, `shootTimer` and `hitFlashTimer` count seconds. */
  datatype Enemy = Enemy(
    pos: Vec3,
    health: int,
    path: seq<GridPoint>,
    pathIndex: int,
    lastPathTime: real,
    targetCell: Option<GridPoint>,
    mode: EnemyMode,
    lastSeenPosition: Option<Vec3>,
    searchTimer: real,
    patrolWaypoints: Option<seq<Vec3>>,
    currentWaypointIndex: int,
    lastSightCheck: real,
    hitFlashTimer: real,
    kind: EnemyKind,
    shootCooldown: real,
    shootTimer: real,
    range: real)

  // ---------------------------------------------------------------------
  // The level: generated once, then only its flags and its fog of war change
  // ---------------------------------------------------------------------

  class LevelState {
    const grid: Grid
    const rooms: seq<Room>
    const startRoom: Room
    const exitRoom: Room
    const keyCell: GridPoint
    const leverCell: GridPoint
    const treasureSpawn: Option<TreasureSpawn>
    const enemySpawns: seq<SpawnInfo>
    const propSpawns: seq<SpawnInfo>
    const potionSpawns: seq<SpawnInfo>
    const seed: int

    /** The fog of war, indexed `discovered[y, x]`. */
    var discovered: array2<bool>
    var hasKey: bool
    var keyDiscovered: bool
    var portalDiscovered: bool
    var leverActivated: bool

    /** The fog of war covers the grid, and the key and portal cells that
        the discovery flags look up lie inside it. */
    predicate Valid()
      reads this
    {
      discovered.Length0 == GridHeight && discovered.Length1 == GridWidth &&
      WellFormed(grid) && InBounds(keyCell) && InBounds(exitRoom.centerCell)
    }

    constructor (grid: Grid, rooms: seq<Room>, startRoom: Room, exitRoom: Room,
                 keyCell: GridPoint, leverCell: GridPoint, treasureSpawn: Option<TreasureSpawn>,
                 enemySpawns: seq<SpawnInfo>, propSpawns: seq<SpawnInfo>, potionSpawns: seq<SpawnInfo>,
                 seed: int, discovered: array2<bool>)
      ensures this.grid == grid && this.rooms == rooms
      ensures this.startRoom == startRoom && this.exitRoom == exitRoom
      ensures this.keyCell == keyCell && this.leverCell == leverCell
      ensures this.treasureSpawn == treasureSpawn
      ensures this.enemySpawns == enemySpawns && this.propSpawns == propSpawns
      ensures this.potionSpawns == potionSpawns && this.seed == seed
      ensures this.discovered == discovered
      ensures !hasKey && !keyDiscovered && !portalDiscovered && !leverActivated
    {
      this.grid := grid;
      this.rooms := rooms;
      this.startRoom := startRoom;
      this.exitRoom := exitRoom;
      this.keyCell := keyCell;
      this.leverCell := leverCell;
      this.treasureSpawn := treasureSpawn;
      this.enemySpawns := enemySpawns;
      this.propSpawns := propSpawns;
      this.potionSpawns := potionSpawns;
      this.seed := seed;
      this.discovered := discovered;
      hasKey := false;
      keyDiscovered := false;
      portalDiscovered := false;
      leverActivated := false;
    }
  }

  // ---------------------------------------------------------------------
  // The session: the single simulation aggregate (the `state` object)
  // ---------------------------------------------------------------------

  class Session {
    var levelState: LevelState?
    /** The camera position, None before the camera exists. */
    var camera: Option<Vec3>
    /** Whether the exit portal, the key mesh exist in the scene. */
    var hasExitPortal: bool
    var hasKeyMesh: bool
    var lever: Option<Lever>
    var remainingEnemies: int
    var currentLevel: int
    var levelTransition: bool
    var controlsActive: bool

    var wallAabbs: seq<Aabb>
    var propColliders: seq<Aabb>
    var doorColliders: seq<Aabb>

    var bullets: seq<Bullet>
    var enemyProjectiles: seq<EnemyProjectile>
    var tracers: seq<Tracer>
    var enemies: seq<Enemy>
    var props: seq<Prop>
    var potions: seq<Potion>
    var treasurePickups: seq<TreasurePickup>
    var doors: seq<Door>

    var health: real
    var shield: real
    var score: int
    var held: Option<Consumable>

    /** `timers.lastShot` and the effect timers of the HUD. */
    var lastShot: real
    var hitmarkerTimer: real
    var damageVignetteTimer: real
    var crosshairTimer: real

    /** `doorColliders[i]` is the collider of `doors[i]`. */
    predicate DoorsAligned()
      reads this
    {
      |doors| == |doorColliders| && forall i :: 0 <= i < |doors| ==> doors[i].collider == doorColliders[i]
    }

    /** `propColliders[i]` is the collider of `props[i]`. */
    predicate PropsAligned()
      reads this
    {
      |props| == |propColliders| && forall i :: 0 <= i < |props| ==> props[i].collider == propColliders[i]
    }

    constructor ()
      ensures levelState == null && camera == None && !hasExitPortal && !hasKeyMesh
      ensures lever == None && remainingEnemies == 0 && currentLevel == 1
      ensures !levelTransition && !controlsActive
      ensures wallAabbs == [] && propColliders == [] && doorColliders == []
      ensures bullets == [] && enemyProjectiles == [] && tracers == [] && enemies == []
      ensures props == [] && potions == [] && treasurePickups == [] && doors == []
      ensures health == 100.0 && shield == 0.0 && score == 0 && held == None
      ensures lastShot == 0.0 && hitmarkerTimer == 0.0 && damageVignetteTimer == 0.0 && crosshairTimer == 0.0
    {
      levelState := null;
      camera := None;
      hasExitPortal := false;
      hasKeyMesh := false;
      lever := None;
      remainingEnemies := 0;
      currentLevel := 1;
      levelTransition := false;
      controlsActive := false;
      wallAabbs := [];
      propColliders := [];
      doorColliders := [];
      bullets := [];
      enemyProjectiles := [];
      tracers := [];
      enemies := [];
      props := [];
      potions := [];
      treasurePickups := [];
      doors := [];
      health := 100.0;
      shield := 0.0;
      score := 0;
      held := None;
      lastShot := 0.0;
      hitmarkerTimer := 0.0;
      damageVignetteTimer := 0.0;
      crosshairTimer := 0.0;
    }
  }
}
