/**
 * Breadth-first path search for the enemies (`findPath`, src/game/enemies.ts).
 *
 * The search walks the four-connected floor of the grid from `start`. It keeps a flat
 * `visited` array and a flat `prev` array, both indexed `y * width + x`, and a queue
 * that it reads from the front. It stops as soon as it takes the goal off the queue.
 * The path is then read back along `prev`, from the goal to the start. The start cell
 * is not part of the path and the goal cell is its last element.
 *
 * The proof pairs the search with ghost state: the set of cells seen, the set expanded,
 * the distance at which each cell was seen and the cell it was seen from. The invariant
 * is the usual one for a breadth-first search, stated over the walks of `Reachability`.
 */
module Pathfinding {
  import opened State
  import opened Cells = Grid
  import opened Reachability

  /** Length of the flat `visited` and `prev` arrays. */
  const Size: int := GridWidth * GridHeight

  /** Flat index of a cell, as the source computes it. */
  function Idx(c: GridPoint): int
  {
    c.y * GridWidth + c.x
  }

  /** The cell a flat index stands for (`x = i % width`, `y = floor(i / width)`). */
  function CellAt(i: int): GridPoint
  {
    GridPoint(i % GridWidth, i / GridWidth)
  }

  lemma IdxRoundTrip(c: GridPoint)
    requires InBounds(c)
    ensures 0 <= Idx(c) < Size && CellAt(Idx(c)) == c
  {
  }

  /** Distinct cells inside the grid have distinct flat indices. */
  lemma IdxInjective(a: GridPoint, b: GridPoint)
    requires InBounds(a) && InBounds(b) && Idx(a) == Idx(b)
    ensures a == b
  {
    IdxRoundTrip(a);
    IdxRoundTrip(b);
  }

  /** The neighbours in the order the search tries them: +x, -x, +y, -y. */
  function Directions(c: GridPoint): (n: seq<GridPoint>)
    ensures |n| == 4
    ensures forall k :: 0 <= k < 4 ==> Adjacent(c, n[k])
  {
    [GridPoint(c.x + 1, c.y), GridPoint(c.x - 1, c.y), GridPoint(c.x, c.y + 1), GridPoint(c.x, c.y - 1)]
  }

  /** Trying the four directions closes a cell in the sense of `Reachability`. */
  lemma DirectionsClose(g: Grid, seen: set<GridPoint>, c: GridPoint)
    requires forall k :: 0 <= k < 4 && Enterable(g, {}, Directions(c)[k]) ==> Directions(c)[k] in seen
    ensures ClosedAt(g, {}, seen, c)
  {
    assert Neighbours(c)[0] == Directions(c)[1];
    assert Neighbours(c)[1] == Directions(c)[0];
    assert Neighbours(c)[2] == Directions(c)[3];
    assert Neighbours(c)[3] == Directions(c)[2];
  }

  /** `w` is a walk over the floor from `start` that ends in `c`. */
  ghost predicate WalkTo(g: Grid, start: GridPoint, c: GridPoint, w: seq<GridPoint>)
  {
    FillWalk(g, {}, start, w) && w[|w| - 1] == c
  }

  /** Every walk from `start` to `c` takes at least `n` steps. */
  ghost predicate NoShorter(g: Grid, start: GridPoint, c: GridPoint, n: int)
  {
    forall w :: WalkTo(g, start, c, w) ==> n <= |w| - 1
  }

  /** Dropping the last cell of a walk leaves a walk to the cell before it. */
  lemma WalkInit(g: Grid, start: GridPoint, c: GridPoint, w: seq<GridPoint>)
    requires WalkTo(g, start, c, w) && |w| > 1
    ensures WalkTo(g, start, w[|w| - 2], w[..|w| - 1]) && Adjacent(w[|w| - 2], c) && Enterable(g, {}, c)
  {
  }

  /** The ghost side of the search. */
  datatype Sweep = Sweep(seen: set<GridPoint>, done: set<GridPoint>, queue: seq<GridPoint>,
                           dist: map<GridPoint, int>, parent: map<GridPoint, GridPoint>)

  /** Every seen cell has a distance, and every seen cell but the start a parent one step nearer. */
  ghost predicate Tree(g: Grid, start: GridPoint, b: Sweep)
  {
    start in b.seen && start in b.dist && b.dist[start] == 0 &&
    (forall c :: c in b.seen ==> InBounds(c) && c in b.dist && 0 <= b.dist[c]) &&
    (forall c :: c in b.seen && c != start ==>
       c in b.parent && b.parent[c] in b.seen && b.parent[c] in b.dist && Adjacent(b.parent[c], c) &&
       Enterable(g, {}, c) && b.dist[c] == b.dist[b.parent[c]] + 1)
  }

  /** No seen cell can be reached in fewer steps than its recorded distance. */
  ghost predicate Minimal(g: Grid, start: GridPoint, b: Sweep)
  {
    forall c :: c in b.dist ==> NoShorter(g, start, c, b.dist[c])
  }

  /** The queue holds distinct seen cells not yet expanded, ordered by distance, at `d` or `d + 1`. */
  ghost predicate Queued(b: Sweep, d: int)
  {
    (forall i :: 0 <= i < |b.queue| ==>
       b.queue[i] in b.seen && b.queue[i] !in b.done && b.queue[i] in b.dist &&
       d <= b.dist[b.queue[i]] <= d + 1) &&
    (forall i, j :: 0 <= i < j < |b.queue| ==>
       b.queue[i] != b.queue[j] && b.dist[b.queue[i]] <= b.dist[b.queue[j]]) &&
    (forall c :: c in b.seen ==> c in b.done || c in b.queue)
  }

  /** Expanded cells are seen, at distance at most `d`, and closed (but for those in `skip`). */
  ghost predicate DoneClosed(g: Grid, b: Sweep, d: int, skip: set<GridPoint>)
  {
    forall c :: c in b.done ==>
      c in b.seen && c in b.dist && b.dist[c] <= d && (c !in skip ==> ClosedAt(g, {}, b.seen, c))
  }

  /** Every cell reachable in fewer than `d` steps has been seen. */
  ghost predicate Frontier(g: Grid, start: GridPoint, seen: set<GridPoint>, d: int)
  {
    forall c, w :: WalkTo(g, start, c, w) && |w| - 1 < d ==> c in seen
  }

  /** The invariant of the main loop, at level `d`. */
  ghost predicate Bfs(g: Grid, start: GridPoint, b: Sweep, d: int)
  {
    Tree(g, start, b) && Minimal(g, start, b) && Queued(b, d) && DoneClosed(g, b, d, {}) &&
    Frontier(g, start, b.seen, d) && 0 <= d
  }

  /** The invariant while the directions of `u`, taken off the queue at level `d`, are tried. */
  ghost predicate Expanding(g: Grid, start: GridPoint, b: Sweep, d: int, u: GridPoint)
  {
    Tree(g, start, b) && Minimal(g, start, b) && Queued(b, d) && DoneClosed(g, b, d, {u}) &&
    Frontier(g, start, b.seen, d) && u in b.done && u in b.dist && b.dist[u] == d && 0 <= d
  }

  /** The contents of the arrays agree with the ghost state. */
  ghost predicate Mirrors(vs: seq<bool>, ps: seq<int>, start: GridPoint, b: Sweep)
  {
    |vs| == Size && |ps| == Size &&
    (forall c :: InBounds(c) ==> (vs[Idx(c)] <==> c in b.seen)) &&
    (forall c :: InBounds(c) && c in b.seen && c != start && c in b.parent ==> ps[Idx(c)] == Idx(b.parent[c]))
  }

  /** The arrays agree with the ghost state. */
  ghost predicate Mirror(visited: array<bool>, prev: array<int>, start: GridPoint, b: Sweep)
    reads visited, prev
  {
    Mirrors(visited[..], prev[..], start, b)
  }

  /** Marking `n` seen from `u` in both arrays mirrors the push of `n`. */
  lemma MirrorPush(vs: seq<bool>, ps: seq<int>, start: GridPoint, b: Sweep, u: GridPoint, n: GridPoint, d: int)
    requires Mirrors(vs, ps, start, b) && InBounds(n) && InBounds(u)
    ensures Mirrors(vs[Idx(n) := true], ps[Idx(n) := Idx(u)], start, Push(b, u, n, d))
  {
    IdxRoundTrip(n);
    var vs', ps', b' := vs[Idx(n) := true], ps[Idx(n) := Idx(u)], Push(b, u, n, d);
    forall c | InBounds(c)
      ensures vs'[Idx(c)] <==> c in b'.seen
    {
      IdxRoundTrip(c);
      if c != n && Idx(c) == Idx(n) {
        IdxInjective(c, n);
      }
    }
    forall c | InBounds(c) && c in b'.seen && c != start && c in b'.parent
      ensures ps'[Idx(c)] == Idx(b'.parent[c])
    {
      IdxRoundTrip(c);
      if c != n && Idx(c) == Idx(n) {
        IdxInjective(c, n);
      }
    }
  }

  /** Cells seen and not yet expanded are queued, so the first queued cell has the least distance. */
  lemma HeadLeast(b: Sweep, d: int, i: int)
    requires Queued(b, d) && 0 <= i < |b.queue|
    ensures b.dist[b.queue[0]] <= b.dist[b.queue[i]]
  {
    if i > 0 {
      assert b.dist[b.queue[0]] <= b.dist[b.queue[i]];
    }
  }

  /** Before a walk's last step the search had seen, and expanded, the cell it steps from. */
  lemma StepFromDone(g: Grid, start: GridPoint, b: Sweep, d: int, lo: int, c: GridPoint, w: seq<GridPoint>)
    requires Tree(g, start, b) && Minimal(g, start, b) && Queued(b, d)
    requires Frontier(g, start, b.seen, d)
    requires forall i :: 0 <= i < |b.queue| ==> lo <= b.dist[b.queue[i]]
    requires WalkTo(g, start, c, w) && 1 < |w| && |w| - 1 <= d && |w| - 1 <= lo
    ensures w[|w| - 2] in b.seen && w[|w| - 2] in b.done && b.dist[w[|w| - 2]] < lo && Adjacent(w[|w| - 2], c) && Enterable(g, {}, c)
  {
    var x, init := w[|w| - 2], w[..|w| - 1];
    WalkInit(g, start, c, w);
    assert WalkTo(g, start, x, init) && |init| - 1 < d;
    assert x in b.seen;
    assert NoShorter(g, start, x, b.dist[x]);
    assert b.dist[x] <= |init| - 1;
    forall i | 0 <= i < |b.queue|
      ensures b.queue[i] != x
    {
    }
  }

  /** A closed expanded cell has all its enterable neighbours seen. */
  lemma ClosedNeighbour(g: Grid, seen: set<GridPoint>, x: GridPoint, c: GridPoint)
    requires ClosedAt(g, {}, seen, x) && Adjacent(x, c) && Enterable(g, {}, c)
    ensures c in seen
  {
    NeighboursAreAdjacent(x, c);
    var k :| 0 <= k < 4 && Neighbours(x)[k] == c;
  }

  /** Taking the head of the queue moves the level to its distance, keeping the frontier. */
  lemma LevelUp(g: Grid, start: GridPoint, b: Sweep, d: int)
    requires Bfs(g, start, b, d) && |b.queue| > 0
    ensures d <= b.dist[b.queue[0]] <= d + 1
    ensures Frontier(g, start, b.seen, b.dist[b.queue[0]])
  {
    var e := b.dist[b.queue[0]];
    forall i | 0 <= i < |b.queue|
      ensures e <= b.dist[b.queue[i]]
    {
      HeadLeast(b, d, i);
    }
    if e == d + 1 {
      forall c, w | WalkTo(g, start, c, w) && |w| - 1 < e
        ensures c in b.seen
      {
        if |w| - 1 == d {
          if |w| == 1 {
            assert c == start;
          } else {
            StepFromDone(g, start, b, d, e, c, w);
            ClosedNeighbour(g, b.seen, w[|w| - 2], c);
          }
        }
      }
    }
  }

  /** Taking the head off the queue and marking it expanded starts its expansion. */
  lemma Dequeue(g: Grid, start: GridPoint, b: Sweep, d: int)
    requires Bfs(g, start, b, d) && |b.queue| > 0
    ensures Expanding(g, start, b.(done := b.done + {b.queue[0]}, queue := b.queue[1..]),
                      b.dist[b.queue[0]], b.queue[0])
  {
    LevelUp(g, start, b, d);
    var u, e := b.queue[0], b.dist[b.queue[0]];
    var b' := b.(done := b.done + {u}, queue := b.queue[1..]);
    forall i | 0 <= i < |b'.queue|
      ensures b'.queue[i] != u && e <= b'.dist[b'.queue[i]]
    {
      assert b'.queue[i] == b.queue[i + 1];
      HeadLeast(b, d, i + 1);
    }
    forall c | c in b'.seen
      ensures c in b'.done || c in b'.queue
    {
      if c !in b.done && c != u {
        var i :| 0 <= i < |b.queue| && b.queue[i] == c;
        assert b'.queue[i - 1] == c;
      }
    }
    assert Queued(b', e);
  }

  /** A cell first seen from `u` at level `d` has no walk shorter than `d + 1`. */
  lemma NewCellMinimal(g: Grid, start: GridPoint, b: Sweep, d: int, u: GridPoint, n: GridPoint)
    requires Expanding(g, start, b, d, u)
    requires n !in b.seen
    ensures NoShorter(g, start, n, d + 1)
  {
    forall w | WalkTo(g, start, n, w)
      ensures d + 1 <= |w| - 1
    {
      if |w| - 1 <= d {
        assert |w| > 1;
        StepFromDone(g, start, b, d, d, n, w);
        ClosedNeighbour(g, b.seen, w[|w| - 2], n);
      }
    }
  }

  /** The ghost state after `n` is seen from `u`. */
  ghost function Push(b: Sweep, u: GridPoint, n: GridPoint, d: int): Sweep
  {
    b.(seen := b.seen + {n}, queue := b.queue + [n], dist := b.dist[n := d + 1], parent := b.parent[n := u])
  }

  lemma PushTree(g: Grid, start: GridPoint, b: Sweep, d: int, u: GridPoint, n: GridPoint)
    requires Expanding(g, start, b, d, u)
    requires n !in b.seen && Adjacent(u, n) && Enterable(g, {}, n)
    ensures Tree(g, start, Push(b, u, n, d)) && Minimal(g, start, Push(b, u, n, d))
  {
    NewCellMinimal(g, start, b, d, u, n);
  }

  lemma PushQueued(b: Sweep, d: int, u: GridPoint, n: GridPoint)
    requires Queued(b, d) && n !in b.seen && b.done <= b.seen
    ensures Queued(Push(b, u, n, d), d)
  {
    var b' := Push(b, u, n, d);
    forall i | 0 <= i < |b'.queue|
      ensures b'.queue[i] in b'.seen && b'.queue[i] !in b'.done && b'.queue[i] in b'.dist &&
              d <= b'.dist[b'.queue[i]] <= d + 1
    {
      if i < |b.queue| {
        assert b'.queue[i] == b.queue[i];
      }
    }
  }

  lemma PushClosed(g: Grid, b: Sweep, d: int, u: GridPoint, n: GridPoint)
    requires DoneClosed(g, b, d, {u}) && n !in b.seen
    ensures DoneClosed(g, Push(b, u, n, d), d, {u})
  {
    var b' := Push(b, u, n, d);
    forall c | c in b'.done && c != u
      ensures ClosedAt(g, {}, b'.seen, c)
    {
      ClosedAtGrows(g, {}, b.seen, b'.seen, c);
    }
  }

  /** Seeing a new enterable neighbour of `u` keeps the invariant of the expansion. */
  lemma PushKeeps(g: Grid, start: GridPoint, b: Sweep, d: int, u: GridPoint, n: GridPoint)
    requires Expanding(g, start, b, d, u)
    requires n !in b.seen && Adjacent(u, n) && Enterable(g, {}, n)
    ensures Expanding(g, start, Push(b, u, n, d), d, u)
  {
    PushTree(g, start, b, d, u, n);
    PushQueued(b, d, u, n);
    PushClosed(g, b, d, u, n);
  }

  /** Try one neighbour of `current`: skip it when it is outside the grid, a wall, or seen. */
  method Visit(g: Grid, start: GridPoint, current: GridPoint, n: GridPoint, visited: array<bool>,
               prev: array<int>, queue: seq<GridPoint>, ghost b: Sweep, ghost d: int)
    returns (queue': seq<GridPoint>, ghost b': Sweep)
    requires WellFormed(g) && Adjacent(current, n) && InBounds(current)
    requires Expanding(g, start, b, d, current) && Mirror(visited, prev, start, b) && queue == b.queue
    modifies visited, prev
    ensures Expanding(g, start, b', d, current) && Mirror(visited, prev, start, b') && queue' == b'.queue
    ensures b.seen <= b'.seen && b'.done == b.done && (b'.seen == b.seen ==> queue' == queue)
    ensures forall c :: c in b'.seen && c !in b.seen ==> InBounds(c)
    ensures Enterable(g, {}, n) ==> n in b'.seen
  {
    if n.x < 0 || n.y < 0 || n.x >= GridWidth || n.y >= GridHeight {
      return queue, b;
    }
    if g[n.y][n.x] == Wall {
      return queue, b;
    }
    var neighborIndex := n.y * GridWidth + n.x;
    if visited[neighborIndex] {
      return queue, b;
    }
    Mark(start, current, n, visited, prev, b, d);
    queue' := queue + [n];
    b' := Push(b, current, n, d);
    PushKeeps(g, start, b, d, current, n);
  }

  /** Record in both arrays that `n` is seen from `current`. */
  method Mark(start: GridPoint, current: GridPoint, n: GridPoint, visited: array<bool>, prev: array<int>,
              ghost b: Sweep, ghost d: int)
    requires Mirror(visited, prev, start, b) && InBounds(n) && InBounds(current)
    modifies visited, prev
    ensures Mirror(visited, prev, start, Push(b, current, n, d))
  {
    IdxRoundTrip(n);
    ghost var vs, ps := visited[..], prev[..];
    visited[n.y * GridWidth + n.x] := true;
    prev[n.y * GridWidth + n.x] := current.y * GridWidth + current.x;
    MirrorPush(vs, ps, start, b, current, n, d);
    assert visited[..] == vs[Idx(n) := true];
    assert prev[..] == ps[Idx(n) := Idx(current)];
  }

  /** Try the four directions from `current`, which has just been taken off the queue. */
  method Expand(g: Grid, start: GridPoint, current: GridPoint, visited: array<bool>, prev: array<int>,
                queue: seq<GridPoint>, ghost b: Sweep, ghost d: int)
    returns (queue': seq<GridPoint>, ghost b': Sweep)
    requires WellFormed(g) && InBounds(current)
    requires Expanding(g, start, b, d, current) && Mirror(visited, prev, start, b) && queue == b.queue
    modifies visited, prev
    ensures Bfs(g, start, b', d) && Mirror(visited, prev, start, b') && queue' == b'.queue
    ensures b.seen <= b'.seen && (b'.seen == b.seen ==> queue' == queue)
    ensures forall c :: c in b'.seen && c !in b.seen ==> InBounds(c)
  {
    var directions := Directions(current);
    queue', b' := queue, b;
    for k := 0 to 4
      invariant Expanding(g, start, b', d, current) && Mirror(visited, prev, start, b') && queue' == b'.queue
      invariant b.seen <= b'.seen && b'.done == b.done && (b'.seen == b.seen ==> queue' == queue)
      invariant forall c :: c in b'.seen && c !in b.seen ==> InBounds(c)
      invariant forall j :: 0 <= j < k && Enterable(g, {}, directions[j]) ==> directions[j] in b'.seen
    {
      ghost var before := b';
      queue', b' := Visit(g, start, current, directions[k], visited, prev, queue', b', d);
      forall j | 0 <= j < k + 1 && Enterable(g, {}, directions[j])
        ensures directions[j] in b'.seen
      {
        if j < k {
          assert directions[j] in before.seen;
        }
      }
    }
    DirectionsClose(g, b'.seen, current);
    assert DoneClosed(g, b', d, {});
  }

  /** Reading the path back along the parents ends at the start, after `dist[goal]` steps. */
  ghost predicate Trail(g: Grid, start: GridPoint, b: Sweep, goal: GridPoint, cur: GridPoint,
                        path: seq<GridPoint>)
    requires Tree(g, start, b)
  {
    cur in b.seen && goal in b.seen &&
    FillWalk(g, {}, cur, [cur] + path) && ([cur] + path)[|path|] == goal &&
    |path| + b.dist[cur] == b.dist[goal] &&
    (forall k :: 0 <= k < |path| ==> path[k] in b.dist && b.dist[path[k]] == b.dist[cur] + 1 + k)
  }

  /** One step back along the parents extends the trail. */
  lemma TrailStep(g: Grid, start: GridPoint, b: Sweep, goal: GridPoint, cur: GridPoint,
                  path: seq<GridPoint>)
    requires Tree(g, start, b) && Trail(g, start, b, goal, cur, path) && cur != start
    ensures Trail(g, start, b, goal, b.parent[cur], [cur] + path)
  {
    var p := b.parent[cur];
    var w, w' := [cur] + path, [p] + ([cur] + path);
    assert w' == [p] + w;
    forall i | 1 <= i < |w'|
      ensures Enterable(g, {}, w'[i])
    {
      if i > 1 {
        assert w'[i] == w[i - 1];
      }
    }
    forall i, j | 0 <= i && j == i + 1 && j < |w'|
      ensures Adjacent(w'[i], w'[j])
    {
      if i > 0 {
        assert w'[i] == w[i - 1] && w'[j] == w[j - 1];
      }
    }
  }

  /** The initial ghost state: only `start` is seen, at distance 0, and it is queued. */
  lemma InitialBfs(g: Grid, start: GridPoint)
    requires InBounds(start)
    ensures Bfs(g, start, Sweep({start}, {}, [start], map[start := 0], map[]), 0)
  {
    var b := Sweep({start}, {}, [start], map[start := 0], map[]);
    assert Frontier(g, start, b.seen, 0);
    assert Minimal(g, start, b);
  }

  /**
   * The search loop of `findPath`: from `start`, expand the head of the queue until the
   * queue is empty or its head is `goal`.
   */
  method Explore(start: GridPoint, goal: GridPoint, g: Grid)
    returns (visited: array<bool>, prev: array<int>, ghost b: Sweep)
    requires WellFormed(g) && IsFloor(g, start) && IsFloor(g, goal)
    ensures Tree(g, start, b) && Mirror(visited, prev, start, b)
    ensures goal in b.seen ==> NoShorter(g, start, goal, b.dist[goal])
    ensures goal !in b.seen ==> !Reaches(g, {}, start, goal)
  {
    visited := new bool[Size](i => false);
    prev := new int[Size](i => -1);
    var queue: seq<GridPoint> := [start];
    var startIndex := start.y * GridWidth + start.x;
    var goalIndex := goal.y * GridWidth + goal.x;
    IdxRoundTrip(start);
    IdxRoundTrip(goal);
    ghost var vs, ps := visited[..], prev[..];
    visited[startIndex] := true;
    b := Sweep({start}, {}, [start], map[start := 0], map[]);
    ghost var d := 0;
    InitialBfs(g, start);
    forall c | InBounds(c)
      ensures visited[Idx(c)] <==> c in b.seen
    {
      IdxRoundTrip(c);
      if c != start && Idx(c) == Idx(start) {
        IdxInjective(c, start);
      }
    }
    ghost var found := false;
    while |queue| > 0
      invariant Bfs(g, start, b, d) && Mirror(visited, prev, start, b) && queue == b.queue
      invariant found ==> goal in b.seen
      decreases |AllCells() - b.seen|, |queue|
    {
      var current := queue[0];
      assert current in b.seen;
      var currentIndex := current.y * GridWidth + current.x;
      if currentIndex == goalIndex {
        found := true;
        IdxInjective(current, goal);
        break;
      }
      Dequeue(g, start, b, d);
      ghost var e := b.dist[current];
      b := b.(done := b.done + {current}, queue := queue[1..]);
      queue := queue[1..];
      ghost var before := b.seen;
      queue, b := Expand(g, start, current, visited, prev, queue, b, e);
      d := e;
      if b.seen != before {
        FewerUnvisited(before, b.seen);
      }
    }
    if goal !in b.seen {
      assert |queue| == 0;
      assert Closed(g, {}, b.seen) by {
        forall c | c in b.seen
          ensures ClosedAt(g, {}, b.seen, c)
        {
          assert c in b.done;
        }
      }
      forall w | FillWalk(g, {}, start, w)
        ensures w[|w| - 1] != goal
      {
        ClosedHoldsWalks(g, {}, start, b.seen, w);
      }
    }
  }

  /** A trail back to the start is the path itself. */
  lemma TrailEnd(g: Grid, start: GridPoint, b: Sweep, goal: GridPoint, path: seq<GridPoint>)
    requires Tree(g, start, b) && Trail(g, start, b, goal, start, path)
    ensures path == [] <==> start == goal
    ensures start !in path && |path| == b.dist[goal]
    ensures path != [] ==> path[|path| - 1] == goal
  {
    if path != [] {
      assert path[|path| - 1] == ([start] + path)[|path|];
    }
    forall k | 0 <= k < |path|
      ensures path[k] != start
    {
    }
  }

  /** The read-back loop of `findPath`: follow `prev` from `goal` until the start. */
  method ReadBack(start: GridPoint, goal: GridPoint, g: Grid, prev: array<int>,
                  ghost visited: array<bool>, ghost b: Sweep)
    returns (path: seq<GridPoint>)
    requires Tree(g, start, b) && Mirror(visited, prev, start, b) && goal in b.seen
    ensures path == [] <==> start == goal
    ensures FillWalk(g, {}, start, [start] + path) && ([start] + path)[|path|] == goal
    ensures start !in path && |path| == b.dist[goal]
    ensures path != [] ==> path[|path| - 1] == goal
  {
    var startIndex := start.y * GridWidth + start.x;
    var goalIndex := goal.y * GridWidth + goal.x;
    path := [];
    var currentIndex := goalIndex;
    ghost var cur := goal;
    assert FillWalk(g, {}, cur, [cur] + path);
    while currentIndex != startIndex && currentIndex != -1
      invariant Trail(g, start, b, goal, cur, path) && currentIndex == Idx(cur)
      decreases b.dist[cur]
    {
      assert cur != start;
      IdxRoundTrip(cur);
      var x := currentIndex % GridWidth;
      var y := currentIndex / GridWidth;
      TrailStep(g, start, b, goal, cur, path);
      path := [GridPoint(x, y)] + path;
      assert prev[..][Idx(cur)] == Idx(b.parent[cur]);
      currentIndex := prev[currentIndex];
      cur := b.parent[cur];
    }
    IdxRoundTrip(cur);
    IdxRoundTrip(start);
    if currentIndex == startIndex {
      IdxInjective(cur, start);
    }
    assert cur == start;
    TrailEnd(g, start, b, goal, path);
  }

  /**
   * `findPath`: the cells of a shortest walk over the floor from `start` to `goal`,
   * without `start`, or the empty path when there is none or `start == goal`.
   */
  method FindPath(start: GridPoint, goal: GridPoint, g: Grid) returns (path: seq<GridPoint>)
    requires WellFormed(g)
    ensures !IsFloor(g, start) || !IsFloor(g, goal) ==> path == []
    ensures path == [] <==>
      !IsFloor(g, start) || !IsFloor(g, goal) || start == goal || !Reaches(g, {}, start, goal)
    ensures path != [] ==> FillWalk(g, {}, start, [start] + path) && path[|path| - 1] == goal && start !in path
    ensures path != [] ==> NoShorter(g, start, goal, |path|)
  {
    if !IsFloor(g, start) || !IsFloor(g, goal) {
      return [];
    }
    var visited, prev, b := Explore(start, goal, g);
    var goalIndex := goal.y * GridWidth + goal.x;
    assert InBounds(goal);
    assert visited[..][Idx(goal)] <==> goal in b.seen;
    if !visited[goalIndex] {
      return [];
    }
    path := ReadBack(start, goal, g, prev, visited, b);
    if path != [] {
      assert WalkTo(g, start, goal, [start] + path);
    }
  }
}
