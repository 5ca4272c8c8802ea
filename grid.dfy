/** Grid geometry: the mapping between grid cells and world positions, the
    Manhattan metric, floor walks, and the random floor-cell pickers that
    draw from the unseeded generator. */
module Grid {
  import opened State

  // ---------------------------------------------------------------------
  // Cells and world positions
  // ---------------------------------------------------------------------

  /** World position of the centre of cell (x, y), at height 0. */
  function GridToWorld(x: int, y: int): Vec3
  {
    Vec3(((x as real) - (GridWidth as real) / 2.0) * CellSize + CellSize / 2.0,
         0.0,
         ((y as real) - (GridHeight as real) / 2.0) * CellSize + CellSize / 2.0)
  }

  /** `Math.max(0, Math.min(hi, v))`. */
  function ClampIndex(v: int, hi: int): int
  {
    if hi < v then (if hi < 0 then 0 else hi) else if v < 0 then 0 else v
  }

  /** The cell under a world position, clamped into the grid. The half size
      is computed from the grid width for both axes. */
  function WorldToGrid(p: Vec3): (c: GridPoint)
    ensures InBounds(c)
  {
    var halfSize := (GridWidth as real) * CellSize / 2.0;
    GridPoint(ClampIndex(((p.x + halfSize) / CellSize).Floor, GridWidth - 1),
              ClampIndex(((p.z + halfSize) / CellSize).Floor, GridHeight - 1))
  }

  /** The centre of a cell maps back to that cell. */
  lemma WorldToGridOfCentre(x: int, y: int)
    requires InBounds(GridPoint(x, y))
    ensures WorldToGrid(GridToWorld(x, y)) == GridPoint(x, y)
  {
    var p := GridToWorld(x, y);
    assert (p.x + 41.0) / 2.0 == (x as real) + 0.5;
    assert (p.z + 41.0) / 2.0 == (y as real) + 0.5;
  }

  /** Cell centres lie on the ground, one cell size apart, and the grid is
      centred on the origin: cell x and cell GridWidth - 1 - x mirror each other. */
  lemma GridToWorldLayout(x: int, y: int)
    ensures GridToWorld(x, y).y == 0.0
    ensures GridToWorld(x + 1, y).x == GridToWorld(x, y).x + CellSize
    ensures GridToWorld(x, y + 1).z == GridToWorld(x, y).z + CellSize
    ensures GridToWorld(x, y).x + GridToWorld(GridWidth - 1 - x, y).x == 0.0
    ensures GridToWorld(x, y).z + GridToWorld(x, GridHeight - 1 - y).z == 0.0
  {
  }

  /** A position over the grid lies within one cell of the centre of the
      cell it maps to, on both axes. */
  lemma WorldToGridNearestCentre(p: Vec3)
    requires -41.0 <= p.x < 41.0 && -41.0 <= p.z < 41.0
    ensures var c := WorldToGrid(p);
            var q := GridToWorld(c.x, c.y);
            q.x - CellSize / 2.0 <= p.x < q.x + CellSize / 2.0 &&
            q.z - CellSize / 2.0 <= p.z < q.z + CellSize / 2.0
  {
  }

  // ---------------------------------------------------------------------
  // Manhattan metric
  // ---------------------------------------------------------------------

  function Abs(v: int): nat
  {
    if v < 0 then -v else v
  }

  function Manhattan(a: GridPoint, b: GridPoint): (d: nat)
    ensures d == 0 <==> a == b
  {
    Abs(a.x - b.x) + Abs(a.y - b.y)
  }

  /** The Manhattan distance is a metric: symmetric and with the triangle
      inequality (identity of indiscernibles is on `Manhattan` itself). */
  lemma ManhattanMetric(a: GridPoint, b: GridPoint, c: GridPoint)
    ensures Manhattan(a, b) == Manhattan(b, a)
    ensures Manhattan(a, c) <= Manhattan(a, b) + Manhattan(b, c)
  {
  }

  // ---------------------------------------------------------------------
  // Floor walks
  // ---------------------------------------------------------------------

  /** The four orthogonal neighbours. */
  predicate Adjacent(a: GridPoint, b: GridPoint)
  {
    Manhattan(a, b) == 1
  }

  /** A floor cell that is not blocked. */
  predicate Open(g: Grid, blocked: set<GridPoint>, c: GridPoint)
  {
    IsFloor(g, c) && c !in blocked
  }

  // ---------------------------------------------------------------------
  // Random floor cells (drawn from Math.random)
  // ---------------------------------------------------------------------

  /** `Math.floor(u * n)` for the unseeded generator's u in [0, 1). */
  function ScaleUnit(u: real, n: int): (i: int)
    ensures 0.0 <= u < 1.0 && 1 <= n ==> 0 <= i < n
  {
    var v := u * (n as real);
    assert 0.0 <= u < 1.0 && 1 <= n ==> 0.0 <= v < n as real by {
      if 0.0 <= u < 1.0 && 1 <= n {
        assert (n as real) - v == (1.0 - u) * (n as real);
        assert 0.0 <= v by {
          if u > 0.0 {
            assert v >= u * 1.0;
          }
        }
      }
    }
    v.Floor
  }

  /** `random(k)` is the k-th value Math.random() returns during the call. */
  ghost predicate UnitDraws(random: nat -> real)
  {
    forall k :: 0.0 <= random(k) < 1.0
  }

  /** The cell of attempt k of `getRandomFloorCell`: two draws per attempt. */
  function GridCandidate(random: nat -> real, k: nat): GridPoint
  {
    GridPoint(ScaleUnit(random(2 * k), GridWidth), ScaleUnit(random(2 * k + 1), GridHeight))
  }

  /** A candidate that `getRandomFloorCell` draws again. */
  predicate RejectedCell(grid: Grid, from: GridPoint, minDistance: int, c: GridPoint)
  {
    !IsFloor(grid, c) || Manhattan(c, from) < minDistance
  }

  /** Draws cells until one is floor and at least `minDistanceFromStart` from
      the camera's cell, or until 200 attempts were made; the last candidate is
      returned even when it was rejected. */
  method GetRandomFloorCell(minDistanceFromStart: int, grid: Grid, camera: Vec3, random: nat -> real)
    returns (cell: GridPoint, ghost attempts: nat)
    requires WellFormed(grid)
    requires UnitDraws(random)
    ensures InBounds(cell)
    ensures 1 <= attempts <= 200 && cell == GridCandidate(random, attempts - 1)
    ensures forall k :: 0 <= k < attempts - 1 ==>
              RejectedCell(grid, WorldToGrid(camera), minDistanceFromStart, GridCandidate(random, k))
    ensures attempts < 200 ==> !RejectedCell(grid, WorldToGrid(camera), minDistanceFromStart, cell)
  {
    var startCell := WorldToGrid(camera);
    var n := 0;
    while true
      invariant 0 <= n < 200
      invariant forall k :: 0 <= k < n ==>
                  RejectedCell(grid, startCell, minDistanceFromStart, GridCandidate(random, k))
      decreases 200 - n
    {
      cell := GridCandidate(random, n);
      n := n + 1;
      if !((grid[cell.y][cell.x] == Wall || Manhattan(cell, startCell) < minDistanceFromStart) && n < 200) {
        break;
      }
    }
    attempts := n;
  }

  /** A room rectangle inside the grid. */
  predicate RoomInGrid(room: Room)
  {
    1 <= room.w && 1 <= room.h &&
    0 <= room.x && room.x + room.w <= GridWidth &&
    0 <= room.y && room.y + room.h <= GridHeight
  }

  /** The cell of attempt k of `getRandomFloorCellInRoom`. */
  function RoomCandidate(room: Room, random: nat -> real, k: nat): GridPoint
  {
    GridPoint(room.x + ScaleUnit(random(2 * k), room.w), room.y + ScaleUnit(random(2 * k + 1), room.h))
  }

  /** Draws cells of the room until one is floor and at least
      `minDistanceFromCell` from `referenceCell`, or until 100 attempts were
      made; returns the last candidate if it is floor, and None otherwise. */
  method GetRandomFloorCellInRoom(room: Room, minDistanceFromCell: int, referenceCell: GridPoint,
                                  grid: Grid, random: nat -> real)
    returns (cell: Option<GridPoint>, ghost attempts: nat)
    requires WellFormed(grid) && RoomInGrid(room)
    requires UnitDraws(random)
    ensures 1 <= attempts <= 100
    ensures forall k :: 0 <= k < attempts - 1 ==>
              RejectedCell(grid, referenceCell, minDistanceFromCell, RoomCandidate(room, random, k))
    ensures var last := RoomCandidate(room, random, attempts - 1);
            cell == if IsFloor(grid, last) then Some(last) else None
    ensures cell.Some? ==> InRoom(room, cell.value) && IsFloor(grid, cell.value)
    ensures attempts < 100 ==> cell.Some? && Manhattan(cell.value, referenceCell) >= minDistanceFromCell
  {
    var c := GridPoint(1, 1);
    var n := 0;
    while true
      invariant 0 <= n < 100
      invariant forall k :: 0 <= k < n ==>
                  RejectedCell(grid, referenceCell, minDistanceFromCell, RoomCandidate(room, random, k))
      decreases 100 - n
    {
      c := RoomCandidate(room, random, n);
      n := n + 1;
      if !((grid[c.y][c.x] != Floor || Manhattan(c, referenceCell) < minDistanceFromCell) && n < 100) {
        break;
      }
    }
    attempts := n;
    if grid[c.y][c.x] == Floor {
      cell := Some(c);
    } else {
      cell := None;
    }
  }

  /** A fresh fog-of-war grid with nothing discovered. */
  method CreateDiscoveryGrid() returns (d: array2<bool>)
    ensures fresh(d)
    ensures d.Length0 == GridHeight && d.Length1 == GridWidth
    ensures forall y, x :: 0 <= y < GridHeight && 0 <= x < GridWidth ==> !d[y, x]
  {
    d := new bool[GridHeight, GridWidth]((y, x) => false);
  }
}
