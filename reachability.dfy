/** Reachability on the generated grid: the 4-connected flood fill, the
    door-cell choices that rely on it, and the detection of room entrances. */
module Reachability {
  import opened State
  import opened Cells = Grid

  // ---------------------------------------------------------------------
  // floodFillReachable
  // ---------------------------------------------------------------------

  /** A cell the flood fill may enter: inside the configured grid, floor and
      not blocked. */
  predicate Enterable(g: Grid, blocked: set<GridPoint>, c: GridPoint)
  {
    InBounds(c) && Open(g, blocked, c)
  }

  /** The neighbours in the order the flood fill tries them: -x, +x, -y, +y. */
  function Neighbours(c: GridPoint): (n: seq<GridPoint>)
    ensures |n| == 4
  {
    [GridPoint(c.x - 1, c.y), GridPoint(c.x + 1, c.y), GridPoint(c.x, c.y - 1), GridPoint(c.x, c.y + 1)]
  }

  /** The four neighbours are exactly the cells adjacent to `c`. */
  lemma NeighboursAreAdjacent(c: GridPoint, d: GridPoint)
    ensures Adjacent(c, d) <==> d in Neighbours(c)
  {
    if Adjacent(c, d) {
      if d.x < c.x {
        assert d == Neighbours(c)[0];
      } else if d.x > c.x {
        assert d == Neighbours(c)[1];
      } else if d.y < c.y {
        assert d == Neighbours(c)[2];
      } else {
        assert d == Neighbours(c)[3];
      }
    }
  }

  /** A walk the flood fill can follow: it begins at `start` (whatever that
      cell is) and every later cell is enterable and adjacent to the one
      before. */
  ghost predicate FillWalk(g: Grid, blocked: set<GridPoint>, start: GridPoint, w: seq<GridPoint>)
  {
    |w| > 0 && w[0] == start &&
    (forall i :: 1 <= i < |w| ==> Enterable(g, blocked, w[i])) &&
    (forall i, j :: 0 <= i && j == i + 1 && j < |w| ==> Adjacent(w[i], w[j]))
  }

  /** `c` is reached from `start`. The start cell itself is always reached. */
  ghost predicate Reaches(g: Grid, blocked: set<GridPoint>, start: GridPoint, c: GridPoint)
  {
    exists w :: FillWalk(g, blocked, start, w) && w[|w| - 1] == c
  }

  /** Every neighbour of `c` that may be entered is in `v`. */
  ghost predicate ClosedAt(g: Grid, blocked: set<GridPoint>, v: set<GridPoint>, c: GridPoint)
  {
    forall k :: 0 <= k < 4 && Enterable(g, blocked, Neighbours(c)[k]) ==> Neighbours(c)[k] in v
  }

  /** No cell of `v` has an enterable neighbour outside `v`. */
  ghost predicate Closed(g: Grid, blocked: set<GridPoint>, v: set<GridPoint>)
  {
    forall c {:trigger ClosedAt(g, blocked, v, c)} :: c in v ==> ClosedAt(g, blocked, v, c)
  }

  lemma ClosedAtGrows(g: Grid, blocked: set<GridPoint>, v: set<GridPoint>, v': set<GridPoint>, c: GridPoint)
    requires v <= v' && ClosedAt(g, blocked, v, c)
    ensures ClosedAt(g, blocked, v', c)
  {
  }

  /** A closed set holding `start` holds the end of every walk from `start`. */
  lemma {:induction false} ClosedHoldsWalks(g: Grid, blocked: set<GridPoint>, start: GridPoint,
                                            v: set<GridPoint>, w: seq<GridPoint>)
    requires start in v && Closed(g, blocked, v) && FillWalk(g, blocked, start, w)
    ensures w[|w| - 1] in v
    decreases |w|
  {
    if |w| > 1 {
      var init := w[..|w| - 1];
      assert FillWalk(g, blocked, start, init);
      ClosedHoldsWalks(g, blocked, start, v, init);
      var p, c := w[|w| - 2], w[|w| - 1];
      NeighboursAreAdjacent(p, c);
      var k :| 0 <= k < 4 && Neighbours(p)[k] == c;
      assert ClosedAt(g, blocked, v, p);
    }
  }

  /** Every cell reached other than the start is enterable. */
  lemma ReachedEnterable(g: Grid, blocked: set<GridPoint>, start: GridPoint, c: GridPoint)
    requires Reaches(g, blocked, start, c) && c != start
    ensures Enterable(g, blocked, c)
  {
    var w :| FillWalk(g, blocked, start, w) && w[|w| - 1] == c;
  }

  /** All cells of the configured grid. */
  ghost function AllCells(): set<GridPoint>
  {
    set x, y | 0 <= x < GridWidth && 0 <= y < GridHeight :: GridPoint(x, y)
  }

  /** Stepping from a reached cell to an adjacent enterable one reaches it. */
  lemma ReachesStep(g: Grid, blocked: set<GridPoint>, start: GridPoint, c: GridPoint, n: GridPoint)
    requires Reaches(g, blocked, start, c) && Adjacent(c, n) && Enterable(g, blocked, n)
    ensures Reaches(g, blocked, start, n)
  {
    var w :| FillWalk(g, blocked, start, w) && w[|w| - 1] == c;
    var w' := w + [n];
    assert FillWalk(g, blocked, start, w') && w'[|w'| - 1] == n;
  }

  /** The walk of one cell: every cell reaches itself. */
  lemma ReachesSelf(g: Grid, blocked: set<GridPoint>, c: GridPoint)
    ensures Reaches(g, blocked, c, c)
  {
    assert FillWalk(g, blocked, c, [c]);
  }

  /** Walks join: what is reached from a reached cell is reached. */
  lemma ReachesTrans(g: Grid, blocked: set<GridPoint>, start: GridPoint, mid: GridPoint, c: GridPoint)
    requires Reaches(g, blocked, start, mid) && Reaches(g, blocked, mid, c)
    ensures Reaches(g, blocked, start, c)
  {
    var u :| FillWalk(g, blocked, start, u) && u[|u| - 1] == mid;
    var v :| FillWalk(g, blocked, mid, v) && v[|v| - 1] == c;
    var w := u + v[1..];
    forall i | 1 <= i < |w|
      ensures Enterable(g, blocked, w[i])
    {
      if i >= |u| {
        assert w[i] == v[i - |u| + 1];
      }
    }
    forall i, j | 0 <= i && j == i + 1 && j < |w|
      ensures Adjacent(w[i], w[j])
    {
      if j < |u| {
        assert Adjacent(u[i], u[j]);
      } else {
        assert w[i] == v[i - |u| + 1] && w[j] == v[j - |u| + 1];
      }
    }
    assert FillWalk(g, blocked, start, w) && w[|w| - 1] == c;
  }

  /** A walk run backwards is a walk when its first cell may be entered. */
  lemma ReachesBack(g: Grid, blocked: set<GridPoint>, start: GridPoint, c: GridPoint)
    requires Reaches(g, blocked, start, c) && Enterable(g, blocked, start)
    ensures Reaches(g, blocked, c, start)
  {
    var w :| FillWalk(g, blocked, start, w) && w[|w| - 1] == c;
    var n := |w|;
    var r := seq(n, i requires 0 <= i < n => w[n - 1 - i]);
    forall i | 1 <= i < n
      ensures Enterable(g, blocked, r[i])
    {
      assert r[i] == w[n - 1 - i];
    }
    forall i, j | 0 <= i && j == i + 1 && j < n
      ensures Adjacent(r[i], r[j])
    {
      assert Adjacent(w[n - 1 - j], w[n - 1 - i]);
    }
    assert FillWalk(g, blocked, c, r) && r[n - 1] == start;
  }

  /** Along row y from x1 to x2, all enterable: (x2, y) is reached from (x1, y). */
  lemma {:induction false} ReachesAlongRow(g: Grid, blocked: set<GridPoint>, y: int, x1: int, x2: int)
    requires forall x :: (x1 <= x <= x2 || x2 <= x <= x1) ==> Enterable(g, blocked, GridPoint(x, y))
    ensures Reaches(g, blocked, GridPoint(x1, y), GridPoint(x2, y))
    decreases if x1 <= x2 then x2 - x1 else x1 - x2
  {
    if x1 == x2 {
      ReachesSelf(g, blocked, GridPoint(x1, y));
    } else {
      var x := if x1 < x2 then x2 - 1 else x2 + 1;
      ReachesAlongRow(g, blocked, y, x1, x);
      ReachesStep(g, blocked, GridPoint(x1, y), GridPoint(x, y), GridPoint(x2, y));
    }
  }

  /** Along column x from y1 to y2, all enterable: (x, y2) is reached from (x, y1). */
  lemma {:induction false} ReachesAlongColumn(g: Grid, blocked: set<GridPoint>, x: int, y1: int, y2: int)
    requires forall y :: (y1 <= y <= y2 || y2 <= y <= y1) ==> Enterable(g, blocked, GridPoint(x, y))
    ensures Reaches(g, blocked, GridPoint(x, y1), GridPoint(x, y2))
    decreases if y1 <= y2 then y2 - y1 else y1 - y2
  {
    if y1 == y2 {
      ReachesSelf(g, blocked, GridPoint(x, y1));
    } else {
      var y := if y1 < y2 then y2 - 1 else y2 + 1;
      ReachesAlongColumn(g, blocked, x, y1, y);
      ReachesStep(g, blocked, GridPoint(x, y1), GridPoint(x, y), GridPoint(x, y2));
    }
  }

  /** Every cell of `v` is reached. */
  ghost predicate AllReached(g: Grid, blocked: set<GridPoint>, start: GridPoint, v: set<GridPoint>)
  {
    forall c :: c in v ==> Reaches(g, blocked, start, c)
  }

  /** `floodFillReachable`: breadth-first search from `start` through floor
      cells that are not blocked. The result holds exactly the cells reached. */
  method FloodFillReachable(g: Grid, start: GridPoint, blocked: set<GridPoint>) returns (visited: set<GridPoint>)
    requires WellFormed(g)
    ensures forall c :: c in visited <==> Reaches(g, blocked, start, c)
  {
    visited := {start};
    var queue := [start];
    assert FillWalk(g, blocked, start, [start]);
    while |queue| > 0
      invariant start in visited && AllReached(g, blocked, start, visited)
      invariant forall i :: 0 <= i < |queue| ==> queue[i] in visited
      invariant forall c {:trigger ClosedAt(g, blocked, visited, c)} ::
                  c in visited && c !in queue ==> ClosedAt(g, blocked, visited, c)
      decreases |AllCells() - visited|, |queue|
    {
      ghost var visited0, queue0 := visited, queue;
      var current := queue[0];
      queue := queue[1..];
      ghost var rest := queue;
      visited, queue := VisitNeighbours(g, blocked, start, current, visited, queue);
      forall i | 0 <= i < |queue|
        ensures queue[i] in visited
      {
        if i < |rest| {
          assert queue[i] == queue[..|rest|][i] == rest[i] == queue0[i + 1];
        }
      }
      if visited != visited0 {
        FewerUnvisited(visited0, visited);
      }
      forall c | c in visited && c !in queue
        ensures ClosedAt(g, blocked, visited, c)
      {
        if c != current {
          assert c !in queue0[1..] && c !in queue0;
          ClosedAtGrows(g, blocked, visited0, visited, c);
        }
      }
    }
    assert Closed(g, blocked, visited);
    forall c | Reaches(g, blocked, start, c)
      ensures c in visited
    {
      var w :| FillWalk(g, blocked, start, w) && w[|w| - 1] == c;
      ClosedHoldsWalks(g, blocked, start, visited, w);
    }
  }

  /** The body of the search loop for the cell `current` taken off the
      queue: each enterable neighbour not yet visited is marked and queued. */
  method VisitNeighbours(g: Grid, blocked: set<GridPoint>, ghost start: GridPoint, current: GridPoint,
                         visited: set<GridPoint>, queue: seq<GridPoint>)
    returns (visited': set<GridPoint>, queue': seq<GridPoint>)
    requires WellFormed(g) && current in visited && AllReached(g, blocked, start, visited)
    ensures visited <= visited' && ClosedAt(g, blocked, visited', current)
    ensures AllReached(g, blocked, start, visited')
    ensures |queue| <= |queue'| && queue'[..|queue|] == queue
    ensures forall c :: c in visited' && c !in visited ==> c in queue'[|queue|..]
    ensures forall i :: |queue| <= i < |queue'| ==> queue'[i] in visited'
    ensures forall c :: c in visited' && c !in visited ==> InBounds(c)
    ensures visited' == visited ==> queue' == queue
  {
    visited', queue' := visited, queue;
    ghost var added: seq<GridPoint> := [];
    var neighbors := Neighbours(current);
    for k := 0 to 4
      invariant visited <= visited' && current in visited' && AllReached(g, blocked, start, visited')
      invariant queue' == queue + added
      invariant forall c :: c in visited' && c !in visited ==> c in added && InBounds(c)
      invariant forall i :: 0 <= i < |added| ==> added[i] in visited' && added[i] !in visited
      invariant forall j :: 0 <= j < k && Enterable(g, blocked, neighbors[j]) ==> neighbors[j] in visited'
    {
      NeighboursAreAdjacent(current, neighbors[k]);
      ghost var before := visited';
      visited', queue' := VisitNeighbour(g, blocked, start, current, neighbors[k], visited', queue');
      if Enterable(g, blocked, neighbors[k]) && neighbors[k] !in before {
        added := added + [neighbors[k]];
      }
    }
    assert queue'[..|queue|] == queue && queue'[|queue|..] == added;
  }

  /** One neighbour: marked and queued when it may be entered and is new. */
  method VisitNeighbour(g: Grid, blocked: set<GridPoint>, ghost start: GridPoint, current: GridPoint,
                        neighbor: GridPoint, visited: set<GridPoint>, queue: seq<GridPoint>)
    returns (visited': set<GridPoint>, queue': seq<GridPoint>)
    requires WellFormed(g) && current in visited && AllReached(g, blocked, start, visited)
    requires Adjacent(current, neighbor)
    ensures || (visited' == visited + {neighbor} && queue' == queue + [neighbor] && neighbor !in visited &&
                Enterable(g, blocked, neighbor))
            || (visited' == visited && queue' == queue && (Enterable(g, blocked, neighbor) ==> neighbor in visited))
    ensures AllReached(g, blocked, start, visited')
  {
    visited', queue' := visited, queue;
    if neighbor.x < 0 || neighbor.y < 0 || neighbor.x >= GridWidth || neighbor.y >= GridHeight {
      return;
    }
    if g[neighbor.y][neighbor.x] != Floor {
      return;
    }
    if neighbor in blocked || neighbor in visited {
      return;
    }
    ReachesStep(g, blocked, start, current, neighbor);
    visited' := visited + {neighbor};
    queue' := queue + [neighbor];
  }

  /** Marking new cells of the grid leaves fewer cells unvisited. */
  lemma FewerUnvisited(v: set<GridPoint>, v': set<GridPoint>)
    requires v <= v' && v != v' && forall c :: c in v' && c !in v ==> InBounds(c)
    ensures |AllCells() - v'| < |AllCells() - v|
  {
    var n :| n in v' && n !in v;
    assert n == GridPoint(n.x, n.y);
    var small, large := AllCells() - v', AllCells() - v;
    var rest := large - small;
    assert large == small + rest;
    assert small * rest == {};
    assert n in rest;
  }

  // ---------------------------------------------------------------------
  // canReachAllCells, pickDoorCell, pickTreasureDoorCell
  // ---------------------------------------------------------------------

  /** Every target is reached from `start` with `blocked` closed off. */
  ghost predicate ReachesAll(g: Grid, blocked: set<GridPoint>, start: GridPoint, targets: seq<GridPoint>)
  {
    forall i :: 0 <= i < |targets| ==> Reaches(g, blocked, start, targets[i])
  }

  /** `canReachAllCells`. */
  method CanReachAllCells(g: Grid, start: GridPoint, targets: seq<GridPoint>, blocked: set<GridPoint>)
    returns (ok: bool)
    requires WellFormed(g)
    ensures ok <==> ReachesAll(g, blocked, start, targets)
  {
    var reachable := FloodFillReachable(g, start, blocked);
    for i := 0 to |targets|
      invariant forall j :: 0 <= j < i ==> Reaches(g, blocked, start, targets[j])
    {
      if targets[i] !in reachable {
        return false;
      }
    }
    return true;
  }

  /** A door on `c` leaves every required cell reachable. */
  ghost predicate KeepsReachable(g: Grid, start: GridPoint, required: seq<GridPoint>, c: GridPoint)
  {
    ReachesAll(g, {c}, start, required)
  }

  /** `pickDoorCell`: the first candidate whose blocking keeps every required
      cell reachable, or None exactly when no candidate does. */
  method PickDoorCell(candidates: seq<GridPoint>, g: Grid, start: GridPoint, required: seq<GridPoint>)
    returns (r: Option<GridPoint>)
    requires WellFormed(g)
    ensures r.None? <==> forall i :: 0 <= i < |candidates| ==> !KeepsReachable(g, start, required, candidates[i])
    ensures r.Some? ==> exists i :: 0 <= i < |candidates| && candidates[i] == r.value &&
                                    KeepsReachable(g, start, required, r.value) &&
                                    forall k :: 0 <= k < i ==> !KeepsReachable(g, start, required, candidates[k])
  {
    var filtered: seq<GridPoint> := [];
    ghost var first := -1;
    for i := 0 to |candidates|
      invariant forall k :: 0 <= k < |filtered| ==> KeepsReachable(g, start, required, filtered[k])
      invariant |filtered| == 0 <==> forall k :: 0 <= k < i ==> !KeepsReachable(g, start, required, candidates[k])
      invariant |filtered| > 0 ==> 0 <= first < i && candidates[first] == filtered[0] &&
                                   forall k :: 0 <= k < first ==> !KeepsReachable(g, start, required, candidates[k])
    {
      var keeps := CanReachAllCells(g, start, required, {candidates[i]});
      if keeps {
        if |filtered| == 0 {
          first := i;
        }
        filtered := filtered + [candidates[i]];
      }
    }
    if |filtered| == 0 {
      return None;
    }
    return Some(filtered[0]);
  }

  /** A door on `c` keeps the lever reachable and shuts the treasure off. */
  ghost predicate GatesTreasure(g: Grid, start: GridPoint, lever: GridPoint, treasure: GridPoint, c: GridPoint)
  {
    Reaches(g, {c}, start, lever) && !Reaches(g, {c}, start, treasure)
  }

  /** `pickTreasureDoorCell`: the first candidate that gates the treasure but
      not the lever, or None exactly when no candidate does. */
  method PickTreasureDoorCell(candidates: seq<GridPoint>, g: Grid, start: GridPoint,
                              lever: GridPoint, treasure: GridPoint)
    returns (r: Option<GridPoint>)
    requires WellFormed(g)
    ensures r.None? <==> forall i :: 0 <= i < |candidates| ==> !GatesTreasure(g, start, lever, treasure, candidates[i])
    ensures r.Some? ==> exists i :: 0 <= i < |candidates| && candidates[i] == r.value &&
                                    GatesTreasure(g, start, lever, treasure, r.value) &&
                                    forall k :: 0 <= k < i ==> !GatesTreasure(g, start, lever, treasure, candidates[k])
  {
    for i := 0 to |candidates|
      invariant forall k :: 0 <= k < i ==> !GatesTreasure(g, start, lever, treasure, candidates[k])
    {
      var candidate := candidates[i];
      var reachable := FloodFillReachable(g, start, {candidate});
      if lever !in reachable {
        continue;
      }
      if treasure in reachable {
        continue;
      }
      return Some(candidate);
    }
    return None;
  }

  // ---------------------------------------------------------------------
  // findRoomEntrances
  // ---------------------------------------------------------------------

  /** On the border of the room rectangle. */
  predicate OnPerimeter(room: Room, c: GridPoint)
  {
    InRoom(room, c) &&
    (c.x == room.x || c.x == room.x + room.w - 1 || c.y == room.y || c.y == room.y + room.h - 1)
  }

  /** A floor cell of the room's border with a floor neighbour outside the room. */
  predicate IsEntrance(room: Room, g: Grid, c: GridPoint)
  {
    OnPerimeter(room, c) && IsFloor(g, c) &&
    exists k :: 0 <= k < 4 && !InRoom(room, Neighbours(c)[k]) && IsFloor(g, Neighbours(c)[k])
  }

  /** Row-major order: by y, then by x. */
  predicate RowMajorBefore(a: GridPoint, b: GridPoint)
  {
    a.y < b.y || (a.y == b.y && a.x < b.x)
  }

  /** Strictly increasing in row-major order. */
  predicate RowMajorSorted(s: seq<GridPoint>)
  {
    forall i, j :: 0 <= i < j < |s| ==> RowMajorBefore(s[i], s[j])
  }

  /** Appending a cell after every cell of a sorted list keeps it sorted. */
  lemma SortedAppend(s: seq<GridPoint>, c: GridPoint)
    requires RowMajorSorted(s) && forall i :: 0 <= i < |s| ==> RowMajorBefore(s[i], c)
    ensures RowMajorSorted(s + [c])
  {
  }

  /** `findRoomEntrances`: every entrance of the room, each once, in row-major
      order of the scan. */
  method FindRoomEntrances(room: Room, g: Grid) returns (entrances: seq<GridPoint>)
    ensures forall i :: 0 <= i < |entrances| ==> IsEntrance(room, g, entrances[i])
    ensures forall c :: IsEntrance(room, g, c) ==> c in entrances
    ensures RowMajorSorted(entrances)
  {
    entrances := [];
    var seen: set<GridPoint> := {};
    var y := room.y;
    while y <= room.y + room.h - 1
      invariant forall i :: 0 <= i < |entrances| ==> IsEntrance(room, g, entrances[i]) && entrances[i].y < y
      invariant forall c :: IsEntrance(room, g, c) && c.y < y ==> c in entrances
      invariant RowMajorSorted(entrances)
      invariant forall c :: c in seen ==> c.y < y
      decreases room.y + room.h - y
    {
      entrances, seen := ScanRow(room, g, y, entrances, seen);
      y := y + 1;
    }
  }

  /** The scan of row y of the room: appends that row's entrances, by x. */
  method ScanRow(room: Room, g: Grid, y: int, entrances: seq<GridPoint>, seen: set<GridPoint>)
    returns (entrances': seq<GridPoint>, seen': set<GridPoint>)
    requires room.y <= y < room.y + room.h
    requires forall i :: 0 <= i < |entrances| ==> IsEntrance(room, g, entrances[i]) && entrances[i].y < y
    requires RowMajorSorted(entrances)
    requires forall c :: c in seen ==> c.y < y
    ensures |entrances| <= |entrances'| && entrances'[..|entrances|] == entrances
    ensures forall i :: 0 <= i < |entrances'| ==> IsEntrance(room, g, entrances'[i]) && entrances'[i].y <= y
    ensures forall c :: IsEntrance(room, g, c) && c.y == y ==> c in entrances'
    ensures RowMajorSorted(entrances')
    ensures forall c :: c in seen' ==> c.y <= y
  {
    entrances', seen' := entrances, seen;
    ghost var row: seq<GridPoint> := [];
    var x := room.x;
    while x <= room.x + room.w - 1
      invariant entrances' == entrances + row
      invariant forall i :: 0 <= i < |row| ==> IsEntrance(room, g, row[i]) && row[i].y == y && row[i].x < x
      invariant CoversRow(room, g, y, x, entrances')
      invariant RowMajorSorted(entrances')
      invariant SeenBefore(seen', GridPoint(x, y))
      decreases room.x + room.w - x
    {
      var cell := GridPoint(x, y);
      ghost var before := entrances';
      ghost var seenBefore := seen';
      NotSeen(seen', cell);
      entrances', seen' := ScanCell(room, g, cell, entrances', seen');
      SeenNext(seenBefore, seen', cell);
      RowStep(room, g, y, entrances, row, before, entrances', cell);
      if IsEntrance(room, g, cell) {
        row := row + [cell];
      }
      CoversNext(room, g, y, x, before, entrances');
      x := x + 1;
    }
    assert entrances'[..|entrances|] == entrances;
  }

  /** Every cell of `seen` comes before `p` in the scan. */
  predicate SeenBefore(seen: set<GridPoint>, p: GridPoint)
  {
    forall c :: c in seen ==> RowMajorBefore(c, p)
  }

  lemma NotSeen(seen: set<GridPoint>, p: GridPoint)
    requires SeenBefore(seen, p)
    ensures p !in seen
  {
  }

  lemma SeenNext(seen: set<GridPoint>, seen': set<GridPoint>, p: GridPoint)
    requires SeenBefore(seen, p) && (seen' == seen || seen' == seen + {p})
    ensures SeenBefore(seen', GridPoint(p.x + 1, p.y))
  {
  }

  /** The row invariants carried over one cell of the scan. */
  lemma RowStep(room: Room, g: Grid, y: int, entrances: seq<GridPoint>, row: seq<GridPoint>,
                before: seq<GridPoint>, after: seq<GridPoint>, cell: GridPoint)
    requires cell.y == y && before == entrances + row && RowMajorSorted(before)
    requires forall i :: 0 <= i < |entrances| ==> entrances[i].y < y
    requires forall i :: 0 <= i < |row| ==> IsEntrance(room, g, row[i]) && row[i].y == y && row[i].x < cell.x
    requires IsEntrance(room, g, cell) ==> after == before + [cell]
    requires !IsEntrance(room, g, cell) ==> after == before
    ensures var row' := if IsEntrance(room, g, cell) then row + [cell] else row;
            after == entrances + row' && RowMajorSorted(after) &&
            forall i :: 0 <= i < |row'| ==> IsEntrance(room, g, row'[i]) && row'[i].y == y && row'[i].x <= cell.x
  {
    if IsEntrance(room, g, cell) {
      forall i | 0 <= i < |before|
        ensures RowMajorBefore(before[i], cell)
      {
        if i < |entrances| {
          assert before[i] == entrances[i];
        } else {
          assert before[i] == row[i - |entrances|];
        }
      }
      SortedAppend(before, cell);
      assert after == entrances + (row + [cell]);
    }
  }

  /** Every entrance of row y left of column x is in `s`. */
  ghost predicate CoversRow(room: Room, g: Grid, y: int, x: int, s: seq<GridPoint>)
  {
    forall c :: IsEntrance(room, g, c) && c.y == y && c.x < x ==> c in s
  }

  lemma CoversNext(room: Room, g: Grid, y: int, x: int, s: seq<GridPoint>, s': seq<GridPoint>)
    requires CoversRow(room, g, y, x, s)
    requires forall c :: c in s ==> c in s'
    requires IsEntrance(room, g, GridPoint(x, y)) ==> GridPoint(x, y) in s'
    ensures CoversRow(room, g, y, x + 1, s')
  {
  }

  /** One cell of the scan: appended, and marked seen, exactly when it is an
      entrance that has not been seen. */
  method ScanCell(room: Room, g: Grid, cell: GridPoint, entrances: seq<GridPoint>, seen: set<GridPoint>)
    returns (entrances': seq<GridPoint>, seen': set<GridPoint>)
    requires InRoom(room, cell)
    ensures IsEntrance(room, g, cell) && cell !in seen ==>
              entrances' == entrances + [cell] && seen' == seen + {cell}
    ensures !(IsEntrance(room, g, cell) && cell !in seen) ==> entrances' == entrances && seen' == seen
  {
    entrances', seen' := entrances, seen;
    var minX, maxX := room.x, room.x + room.w - 1;
    var minY, maxY := room.y, room.y + room.h - 1;
    var x, y := cell.x, cell.y;
    if x != minX && x != maxX && y != minY && y != maxY {
      return;
    }
    if !(0 <= y < |g| && 0 <= x < |g[y]| && g[y][x] == Floor) {
      return;
    }
    var neighbors := Neighbours(cell);
    ghost var pushed := false;
    for k := 0 to 4
      invariant pushed ==> IsEntrance(room, g, cell) && cell !in seen
      invariant entrances' == entrances + (if pushed then [cell] else [])
      invariant seen' == seen + (if pushed then {cell} else {})
      invariant forall j :: 0 <= j < k && !InRoom(room, neighbors[j]) && IsFloor(g, neighbors[j]) ==>
                  pushed || cell in seen
    {
      var neighbor := neighbors[k];
      if neighbor.x < minX || neighbor.x > maxX || neighbor.y < minY || neighbor.y > maxY {
        if !(0 <= neighbor.y < |g| && 0 <= neighbor.x < |g[neighbor.y]| && g[neighbor.y][neighbor.x] == Floor) {
          continue;
        }
        if cell in seen' {
          continue;
        }
        entrances' := entrances' + [cell];
        seen' := seen' + {cell};
        pushed := true;
      }
    }
  }
}
