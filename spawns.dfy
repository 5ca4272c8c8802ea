/** The seeded choices made after the dungeon is laid out: random rooms and
    cells, the key and lever cells, the room tags, and the enemy, prop,
    potion and treasure spawn lists (src/game/level.ts). Rooms are values
    and stand for the same room exactly when their ids agree. */
module Spawns {
  import opened State
  import opened Cells = Grid
  import opened SeededRandom
  import opened Sorting
  import Reachability

  // ---------------------------------------------------------------------
  // Random rooms
  // ---------------------------------------------------------------------

  /** `pickRandomRoom`: null for an empty list (no draw), else one draw
      picks an entry. */
  method PickRandomRoom(rooms: seq<Room>, rng: Rng) returns (r: Option<Room>)
    requires rng.Valid()
    modifies rng
    ensures rng.Valid() && rng.seed == old(rng.seed)
    ensures |rng.drawn| == |old(rng.drawn)| + (if |rooms| == 0 then 0 else 1)
    ensures rng.drawn[..|old(rng.drawn)|] == old(rng.drawn)
    ensures |rooms| == 0 ==> r == None
    ensures |rooms| > 0 ==> r == Some(rooms[ScaledIndex(rng.drawn[|old(rng.drawn)|], |rooms|)])
  {
    if |rooms| == 0 {
      return None;
    }
    var i := DrawIndex(rng, |rooms|);
    r := Some(rooms[i]);
  }

  /** `Math.max(1, Math.ceil(n * 0.5))`. */
  function TopCount(n: nat): (t: nat)
    ensures 1 <= t
    ensures 1 <= n ==> t <= n && n <= 2 * t <= n + 1
  {
    if n == 0 then 1 else (n + 1) / 2
  }

  /** `pickRoomFromTop`: null for an empty list (no draw), else one draw
      picks among the first ceil(n / 2) entries. */
  method PickRoomFromTop(rooms: seq<Room>, rng: Rng) returns (r: Option<Room>)
    requires rng.Valid()
    modifies rng
    ensures rng.Valid() && rng.seed == old(rng.seed)
    ensures |rng.drawn| == |old(rng.drawn)| + (if |rooms| == 0 then 0 else 1)
    ensures rng.drawn[..|old(rng.drawn)|] == old(rng.drawn)
    ensures |rooms| == 0 ==> r == None
    ensures |rooms| > 0 ==>
              var i := ScaledIndex(rng.drawn[|old(rng.drawn)|], TopCount(|rooms|));
              0 <= i < TopCount(|rooms|) && r == Some(rooms[i])
    ensures FromTop(rooms, r)
  {
    if |rooms| == 0 {
      return None;
    }
    var i := DrawIndex(rng, TopCount(|rooms|));
    r := Some(rooms[i]);
  }

  /** `findRoomForCell`: the first room whose rectangle holds the cell. */
  function FindRoomForCell(rooms: seq<Room>, cell: GridPoint): (r: Option<Room>)
  {
    if |rooms| == 0 then None
    else if InRoom(rooms[0], cell) then Some(rooms[0])
    else FindRoomForCell(rooms[1..], cell)
  }

  /** The result is null exactly when no room holds the cell, and otherwise
      the first room that does. */
  lemma {:induction false} FindRoomForCellSpec(rooms: seq<Room>, cell: GridPoint)
    ensures FindRoomForCell(rooms, cell) == None <==> forall k :: 0 <= k < |rooms| ==> !InRoom(rooms[k], cell)
    ensures FindRoomForCell(rooms, cell).Some? ==>
              exists i :: 0 <= i < |rooms| && rooms[i] == FindRoomForCell(rooms, cell).value &&
                          InRoom(rooms[i], cell) && forall k :: 0 <= k < i ==> !InRoom(rooms[k], cell)
    decreases |rooms|
  {
    if |rooms| > 0 && !InRoom(rooms[0], cell) {
      FindRoomForCellSpec(rooms[1..], cell);
      if FindRoomForCell(rooms[1..], cell).Some? {
        var i :| 0 <= i < |rooms[1..]| && rooms[1..][i] == FindRoomForCell(rooms, cell).value &&
                 InRoom(rooms[1..][i], cell) && forall k :: 0 <= k < i ==> !InRoom(rooms[1..][k], cell);
        assert rooms[i + 1] == rooms[1..][i];
        forall k | 0 <= k < i + 1
          ensures !InRoom(rooms[k], cell)
        {
          if k > 0 {
            assert rooms[k] == rooms[1..][k - 1];
          }
        }
      } else {
        forall k | 0 <= k < |rooms|
          ensures !InRoom(rooms[k], cell)
        {
          if k > 0 {
            assert rooms[k] == rooms[1..][k - 1];
          }
        }
      }
    }
  }

  // ---------------------------------------------------------------------
  // A random floor cell of a room (seeded)
  // ---------------------------------------------------------------------

  /** The cell of attempt k of `getRandomFloorCellInRoomWithRng` when its
      draws start at index n: two draws per attempt, x first. */
  function SeededCandidate(room: Room, drawn: seq<bv32>, n: nat, k: nat): GridPoint
    requires n + 2 * k + 1 < |drawn|
  {
    GridPoint(room.x + ScaledIndex(drawn[n + 2 * k], room.w), room.y + ScaledIndex(drawn[n + 2 * k + 1], room.h))
  }

  /** The first `upto` attempts from draw n on were all drawn again. */
  ghost predicate AllRejected(g: Grid, room: Room, reference: GridPoint, minDistance: int,
                              drawn: seq<bv32>, n: nat, upto: nat)
  {
    n + 2 * upto <= |drawn| &&
    forall k :: 0 <= k < upto ==> RejectedCell(g, reference, minDistance, SeededCandidate(room, drawn, n, k))
  }

  /** Further draws do not change the earlier attempts. */
  lemma AllRejectedExtend(g: Grid, room: Room, reference: GridPoint, minDistance: int,
                          drawn: seq<bv32>, drawn': seq<bv32>, n: nat, upto: nat)
    requires AllRejected(g, room, reference, minDistance, drawn, n, upto)
    requires |drawn| <= |drawn'| && drawn'[..|drawn|] == drawn
    ensures AllRejected(g, room, reference, minDistance, drawn', n, upto)
  {
    forall k | 0 <= k < upto
      ensures SeededCandidate(room, drawn', n, k) == SeededCandidate(room, drawn, n, k)
    {
      assert drawn'[n + 2 * k] == drawn[n + 2 * k] && drawn'[n + 2 * k + 1] == drawn[n + 2 * k + 1];
    }
  }

  lemma AllRejectedNext(g: Grid, room: Room, reference: GridPoint, minDistance: int,
                        drawn: seq<bv32>, n: nat, upto: nat)
    requires AllRejected(g, room, reference, minDistance, drawn, n, upto) && n + 2 * upto + 1 < |drawn|
    requires RejectedCell(g, reference, minDistance, SeededCandidate(room, drawn, n, upto))
    ensures AllRejected(g, room, reference, minDistance, drawn, n, upto + 1)
  {
  }

  lemma CandidateShift(room: Room, drawn: seq<bv32>, n: nat, k: nat)
    requires n + 2 * k + 1 < |drawn|
    ensures SeededCandidate(room, drawn, n, k) == SeededCandidate(room, drawn, n + 2 * k, 0)
  {
  }

  /** The two draws of one attempt. */
  method DrawRoomCell(room: Room, rng: Rng) returns (c: GridPoint)
    requires rng.Valid()
    modifies rng
    ensures rng.Valid() && rng.seed == old(rng.seed)
    ensures |rng.drawn| == |old(rng.drawn)| + 2 && rng.drawn[..|old(rng.drawn)|] == old(rng.drawn)
    ensures c == SeededCandidate(room, rng.drawn, |old(rng.drawn)|, 0)
    ensures 1 <= room.w && 1 <= room.h ==> InRoom(room, c)
  {
    var dx := DrawIndex(rng, room.w);
    ghost var mid := rng.drawn;
    var dy := DrawIndex(rng, room.h);
    assert rng.drawn[..|old(rng.drawn)|] == mid[..|old(rng.drawn)|];
    c := GridPoint(room.x + dx, room.y + dy);
  }

  /** The cell of an attempt whose two draws are `draws(pos)` and
      `draws(pos + 1)`. */
  function CandidateAt(room: Room, draws: nat -> bv32, pos: nat): GridPoint
  {
    GridPoint(room.x + ScaledIndex(draws(pos), room.w), room.y + ScaledIndex(draws(pos + 1), room.h))
  }

  /** The outcome of a search: the cell returned and the index of the first
      draw left unread. */
  datatype Found = Found(cell: Option<GridPoint>, next: nat)

  /** `getRandomFloorCellInRoomWithRng` as a function of the draw stream:
      attempt `k` (from 0) reads draws `pos` and `pos + 1`. */
  function FloorCellSearch(g: Grid, room: Room, minDistance: int, reference: GridPoint,
                           draws: nat -> bv32, pos: nat, k: nat): (r: Found)
    ensures pos + 2 <= r.next
    ensures r.cell.Some? ==> IsFloor(g, r.cell.value)
    ensures 1 <= room.w && 1 <= room.h && r.cell.Some? ==> InRoom(room, r.cell.value)
    ensures k < 100 ==> r.next <= pos + 2 * (100 - k)
    ensures k < 99 && r.next < pos + 2 * (100 - k) ==> r.cell.Some? && Manhattan(r.cell.value, reference) >= minDistance
    decreases 100 - k
  {
    var c := CandidateAt(room, draws, pos);
    if k + 1 < 100 && RejectedCell(g, reference, minDistance, c) then
      FloorCellSearch(g, room, minDistance, reference, draws, pos + 2, k + 1)
    else
      Found(if IsFloor(g, c) then Some(c) else None, pos + 2)
  }

  /** One attempt of the search: drawn again when rejected and fewer than
      100 attempts were made, else the search ends with this candidate. */
  lemma FloorCellSearchStep(g: Grid, room: Room, minDistance: int, reference: GridPoint,
                            draws: nat -> bv32, pos: nat, k: nat)
    ensures var c := CandidateAt(room, draws, pos);
            FloorCellSearch(g, room, minDistance, reference, draws, pos, k)
            == if k + 1 < 100 && RejectedCell(g, reference, minDistance, c)
               then FloorCellSearch(g, room, minDistance, reference, draws, pos + 2, k + 1)
               else Found(if IsFloor(g, c) then Some(c) else None, pos + 2)
  {
  }

  /** Draws that agree with the record from index `n` on. */
  ghost predicate Records(drawn: seq<bv32>, draws: nat -> bv32, n: nat)
  {
    forall j :: n <= j < |drawn| ==> drawn[j] == draws(j)
  }

  /** Entry `j` of a record is draw `j`. */
  lemma RecordsAt(drawn: seq<bv32>, draws: nat -> bv32, n: nat, j: nat)
    requires Records(drawn, draws, n) && n <= j < |drawn|
    ensures drawn[j] == draws(j)
  {
  }

  /** A record that agrees with the draws agrees on each of its prefixes. */
  lemma RecordsPrefix(drawn: seq<bv32>, longer: seq<bv32>, draws: nat -> bv32, n: nat)
    requires |drawn| <= |longer| && longer[..|drawn|] == drawn && Records(longer, draws, n)
    ensures Records(drawn, draws, n)
  {
    forall j | n <= j < |drawn|
      ensures drawn[j] == draws(j)
    {
      assert drawn[j] == longer[..|drawn|][j];
    }
  }

  /** The generator's own outputs agree with its record. */
  lemma StreamRecords(seed: bv32, drawn: seq<bv32>, n: nat)
    requires drawn == Stream(seed, |drawn|)
    ensures Records(drawn, Outputs(seed), n)
  {
    StreamAt(seed, |drawn|);
  }

  /** A recorded search (its rejected attempts, its last candidate and the
      cell it returned) is the search of any draws that agree with the
      record, from any of its attempts on. */
  lemma {:induction false} RecordedSearch(g: Grid, room: Room, minDistance: int, reference: GridPoint,
                                          draws: nat -> bv32, drawn: seq<bv32>, n0: nat, attempts: nat,
                                          cell: Option<GridPoint>, k: nat)
    requires Records(drawn, draws, n0) && 1 <= attempts <= 100 && |drawn| == n0 + 2 * attempts
    requires AllRejected(g, room, reference, minDistance, drawn, n0, attempts - 1)
    requires var last := SeededCandidate(room, drawn, n0, attempts - 1);
             cell == if IsFloor(g, last) then Some(last) else None
    requires attempts < 100 ==> cell.Some? && Manhattan(cell.value, reference) >= minDistance
    requires k < attempts
    ensures FloorCellSearch(g, room, minDistance, reference, draws, n0 + 2 * k, k) == Found(cell, |drawn|)
    decreases attempts - k
  {
    assert drawn[n0 + 2 * k] == draws(n0 + 2 * k) && drawn[n0 + 2 * k + 1] == draws(n0 + 2 * k + 1);
    assert SeededCandidate(room, drawn, n0, k) == CandidateAt(room, draws, n0 + 2 * k);
    FloorCellSearchStep(g, room, minDistance, reference, draws, n0 + 2 * k, k);
    if k + 1 < attempts {
      assert RejectedCell(g, reference, minDistance, SeededCandidate(room, drawn, n0, k));
      RecordedSearch(g, room, minDistance, reference, draws, drawn, n0, attempts, cell, k + 1);
    }
  }


  /** `getRandomFloorCellInRoomWithRng`: draws cells of the room until one
      is floor and at least `minDistanceFromCell` from `referenceCell`, or
      until 100 attempts were made; returns the last candidate if it is
      floor, and null otherwise. */
  method GetRandomFloorCellInRoomWithRng(room: Room, minDistanceFromCell: int, referenceCell: GridPoint,
                                         g: Grid, rng: Rng)
    returns (cell: Option<GridPoint>, ghost attempts: nat)
    requires WellFormed(g) && RoomInGrid(room) && rng.Valid()
    modifies rng
    ensures rng.Valid() && rng.seed == old(rng.seed)
    ensures 1 <= attempts <= 100
    ensures |rng.drawn| == |old(rng.drawn)| + 2 * attempts && rng.drawn[..|old(rng.drawn)|] == old(rng.drawn)
    ensures AllRejected(g, room, referenceCell, minDistanceFromCell, rng.drawn, |old(rng.drawn)|, attempts - 1)
    ensures var last := SeededCandidate(room, rng.drawn, |old(rng.drawn)|, attempts - 1);
            cell == if IsFloor(g, last) then Some(last) else None
    ensures cell.Some? ==> InRoom(room, cell.value) && IsFloor(g, cell.value)
    ensures attempts < 100 ==> cell.Some? && Manhattan(cell.value, referenceCell) >= minDistanceFromCell
  {
    ghost var n0 := |rng.drawn|;
    var c := GridPoint(1, 1);
    var n := 0;
    while true
      invariant 0 <= n < 100
      invariant rng.Valid() && rng.seed == old(rng.seed)
      invariant |rng.drawn| == n0 + 2 * n && rng.drawn[..n0] == old(rng.drawn)
      invariant AllRejected(g, room, referenceCell, minDistanceFromCell, rng.drawn, n0, n)
      decreases 100 - n
    {
      ghost var before := rng.drawn;
      c := DrawRoomCell(room, rng);
      AllRejectedExtend(g, room, referenceCell, minDistanceFromCell, before, rng.drawn, n0, n);
      assert rng.drawn[..n0] == before[..n0];
      CandidateShift(room, rng.drawn, n0, n);
      n := n + 1;
      if !((g[c.y][c.x] != Floor || Manhattan(c, referenceCell) < minDistanceFromCell) && n < 100) {
        assert c == SeededCandidate(room, rng.drawn, n0, n - 1) && InRoom(room, c);
        break;
      }
      AllRejectedNext(g, room, referenceCell, minDistanceFromCell, rng.drawn, n0, n - 1);
    }
    attempts := n;
    assert IsFloor(g, c) <==> g[c.y][c.x] == Floor;
    if g[c.y][c.x] == Floor {
      cell := Some(c);
    } else {
      cell := None;
    }
  }

  /** `getRandomFloorCellInRoomWithRng` read against the draws: the cell it
      returns and the draws it reads are those of the search of any draws
      that agree with what it drew. */
  method SearchFloorCell(room: Room, minDistanceFromCell: int, referenceCell: GridPoint,
                         g: Grid, rng: Rng)
    returns (cell: Option<GridPoint>)
    requires WellFormed(g) && RoomInGrid(room) && rng.Valid()
    modifies rng
    ensures rng.Valid() && rng.seed == old(rng.seed)
    ensures |rng.drawn| >= |old(rng.drawn)| && rng.drawn[..|old(rng.drawn)|] == old(rng.drawn)
    ensures cell.Some? ==> InRoom(room, cell.value) && IsFloor(g, cell.value)
    ensures forall draws :: Records(rng.drawn, draws, |old(rng.drawn)|) ==>
              FloorCellSearch(g, room, minDistanceFromCell, referenceCell, draws, |old(rng.drawn)|, 0)
              == Found(cell, |rng.drawn|)
  {
    ghost var n0 := |rng.drawn|;
    ghost var attempts;
    cell, attempts := GetRandomFloorCellInRoomWithRng(room, minDistanceFromCell, referenceCell, g, rng);
    forall draws | Records(rng.drawn, draws, n0)
      ensures FloorCellSearch(g, room, minDistanceFromCell, referenceCell, draws, n0, 0) == Found(cell, |rng.drawn|)
    {
      RecordedSearch(g, room, minDistanceFromCell, referenceCell, draws, rng.drawn, n0, attempts, cell, 0);
    }
  }

  // ---------------------------------------------------------------------
  // Room lists
  // ---------------------------------------------------------------------

  /** The rooms whose id is not in `ids`, in order (`room !== a && ...`). */
  function Excluding(rooms: seq<Room>, ids: set<int>): seq<Room>
  {
    Filter(rooms, (r: Room) => r.id !in ids)
  }

  lemma ExcludingMembers(rooms: seq<Room>, ids: set<int>)
    ensures forall r :: r in Excluding(rooms, ids) <==> r in rooms && r.id !in ids
  {
    FilterMembers(rooms, (r: Room) => r.id !in ids);
  }

  /** The id of an optional room, as the set of ids it excludes. */
  function IdOf(r: Option<Room>): set<int>
  {
    if r.Some? then {r.value.id} else {}
  }

  /** Every room lies in the grid. */
  predicate AllInGrid(rooms: seq<Room>)
  {
    forall r :: r in rooms ==> RoomInGrid(r)
  }

  /** Ids identify rooms: no two entries share one. */
  predicate DistinctIds(rooms: seq<Room>)
  {
    forall i, j :: 0 <= i < |rooms| && 0 <= j < |rooms| && i != j ==> rooms[i].id != rooms[j].id
  }

  /** The cell a random floor pick in `room` gives, or the room's centre
      when the pick fails (`... || room.centerCell`). */
  predicate CellOrCentre(g: Grid, room: Room, c: GridPoint)
  {
    c == room.centerCell || (InRoom(room, c) && IsFloor(g, c))
  }

  // ---------------------------------------------------------------------
  // The key cell
  // ---------------------------------------------------------------------

  /** The rooms `pickKeyCell` chooses from: neither start nor exit. */
  function KeyCandidates(rooms: seq<Room>, start: Room, exit: Room): seq<Room>
  {
    Excluding(rooms, {start.id, exit.id})
  }

  /** The preferred ones: centre at least 8 from the start centre. */
  function FarRooms(candidates: seq<Room>, start: Room): seq<Room>
  {
    Filter(candidates, (r: Room) => Manhattan(r.centerCell, start.centerCell) >= 8)
  }

  /** `pickKeyCell`: a random room other than start and exit, preferring
      those at least 8 from the start; the start room when there is none.
      The key lies on a floor cell of it at least 4 from the start centre
      when one is found, else on its centre. `keyRoom` is the room chosen. */
  method PickKeyCell(rooms: seq<Room>, start: Room, exit: Room, g: Grid, rng: Rng)
    returns (cell: GridPoint, ghost keyRoom: Room)
    requires WellFormed(g) && AllInGrid(rooms) && RoomInGrid(start) && rng.Valid()
    modifies rng
    ensures rng.Valid() && rng.seed == old(rng.seed)
    ensures var candidates := KeyCandidates(rooms, start, exit);
            && (|candidates| == 0 ==> keyRoom == start)
            && (|candidates| > 0 ==> keyRoom in candidates)
            && (|FarRooms(candidates, start)| > 0 ==> keyRoom in FarRooms(candidates, start))
    ensures CellOrCentre(g, keyRoom, cell)
  {
    var candidates := KeyCandidates(rooms, start, exit);
    var farRooms := FarRooms(candidates, start);
    ExcludingMembers(rooms, {start.id, exit.id});
    FilterMembers(candidates, (r: Room) => Manhattan(r.centerCell, start.centerCell) >= 8);
    var picked := PickRandomRoom(farRooms, rng);
    if picked.None? {
      picked := PickRandomRoom(candidates, rng);
    }
    var room := if picked.Some? then picked.value else start;
    keyRoom := room;
    var found, _ := GetRandomFloorCellInRoomWithRng(room, 4, start.centerCell, g, rng);
    cell := if found.Some? then found.value else room.centerCell;
  }

  // ---------------------------------------------------------------------
  // Room tags
  // ---------------------------------------------------------------------

  /** A leaf room has at most one entrance cell. */
  ghost predicate Leaf(g: Grid, room: Room)
  {
    forall a, b :: Reachability.IsEntrance(room, g, a) && Reachability.IsEntrance(room, g, b) ==> a == b
  }

  /** A complete, strictly sorted list of the entrances has at most one
      entry exactly for a leaf room. */
  lemma EntranceCount(g: Grid, room: Room, entrances: seq<GridPoint>)
    requires forall i :: 0 <= i < |entrances| ==> Reachability.IsEntrance(room, g, entrances[i])
    requires forall c :: Reachability.IsEntrance(room, g, c) ==> c in entrances
    requires Reachability.RowMajorSorted(entrances)
    ensures |entrances| <= 1 <==> Leaf(g, room)
  {
    if |entrances| >= 2 {
      assert Reachability.RowMajorBefore(entrances[0], entrances[1]);
      assert entrances[0] != entrances[1];
      assert !Leaf(g, room);
    }
  }

  /** `sorted.filter((room) => findRoomEntrances(room, grid).length <= 1)`. */
  method LeafRooms(sorted: seq<Room>, g: Grid) returns (leaves: seq<Room>)
    ensures leaves == Filter(sorted, (r: Room) => Leaf(g, r))
  {
    leaves := [];
    for i := 0 to |sorted|
      invariant leaves == Filter(sorted[..i], (r: Room) => Leaf(g, r))
    {
      var entrances := Reachability.FindRoomEntrances(sorted[i], g);
      EntranceCount(g, sorted[i], entrances);
      FilterSnoc(sorted[..i], sorted[i], (r: Room) => Leaf(g, r));
      assert sorted[..i + 1] == sorted[..i] + [sorted[i]];
      if |entrances| <= 1 {
        leaves := leaves + [sorted[i]];
      }
    }
    assert sorted[..|sorted|] == sorted;
  }

  /** The sort key putting rooms farther from `c` first (`b - a` on the
      distance), applied by the stable sort. */
  function FarFirst(c: GridPoint): Room -> int
  {
    (r: Room) => 0 - Manhattan(r.centerCell, c) as int
  }

  /** The tag a room ends with after `assignRoomTags`. */
  function TagFor(id: int, treasure: Option<Room>, trap: Option<Room>, armory: Option<Room>): RoomTag
  {
    if treasure.Some? && id == treasure.value.id then Treasure
    else if trap.Some? && id == trap.value.id then Trap
    else if armory.Some? && id == armory.value.id then Armory
    else Untagged
  }

  /** The rooms with every tag replaced by the one `TagFor` gives. */
  function Retag(rooms: seq<Room>, treasure: Option<Room>, trap: Option<Room>, armory: Option<Room>): (r: seq<Room>)
    ensures |r| == |rooms|
  {
    seq(|rooms|, k requires 0 <= k < |rooms| => rooms[k].(tag := TagFor(rooms[k].id, treasure, trap, armory)))
  }

  /** The pools `assignRoomTags` draws from: the candidates farthest first,
      the leaves among them (or all of them when there is no leaf) for the
      treasure, the rest for the trap, and the rest without the trap for the
      armory. */
  function TagCandidates(rooms: seq<Room>, start: Room, exit: Room, keyRoom: Option<Room>): seq<Room>
  {
    SortBy(Excluding(rooms, {start.id, exit.id} + IdOf(keyRoom)), FarFirst(start.centerCell))
  }

  ghost function TreasurePool(g: Grid, sorted: seq<Room>): seq<Room>
  {
    var leaves := Filter(sorted, (r: Room) => Leaf(g, r));
    if |leaves| > 0 then leaves else sorted
  }

  /** Picked from the first ceil(n / 2) entries of `pool`, or nothing from an
      empty pool. */
  predicate FromTop(pool: seq<Room>, r: Option<Room>)
  {
    (|pool| == 0 <==> r == None) &&
    (r.Some? ==> exists i :: 0 <= i < TopCount(|pool|) && i < |pool| && pool[i] == r.value)
  }

  /** How `assignRoomTags` picks: nothing without candidates; else the
      treasure room from the top of its pool, the trap room from the top of
      the rest, and the armory from the top of the rest without the trap. */
  ghost predicate TagChoice(rooms: seq<Room>, start: Room, exit: Room, keyRoom: Option<Room>, g: Grid,
                            treasure: Option<Room>, trap: Option<Room>, armory: Option<Room>)
  {
    var sorted := TagCandidates(rooms, start, exit, keyRoom);
    if |sorted| == 0 then treasure == None && trap == None && armory == None
    else
      && FromTop(TreasurePool(g, sorted), treasure) && treasure.Some?
      && var remaining := Excluding(sorted, IdOf(treasure));
         FromTop(remaining, trap) && FromTop(Excluding(remaining, IdOf(trap)), armory)
  }

  /** A tagged room is a room of the list that is neither the start, the
      exit nor the key room. */
  predicate Eligible(rooms: seq<Room>, start: Room, exit: Room, keyRoom: Option<Room>, r: Option<Room>)
  {
    r.Some? ==> r.value in rooms && r.value.id !in {start.id, exit.id} + IdOf(keyRoom)
  }

  /** The three tagged rooms are eligible and pairwise different. */
  lemma TagChoiceSpec(rooms: seq<Room>, start: Room, exit: Room, keyRoom: Option<Room>, g: Grid,
                      treasure: Option<Room>, trap: Option<Room>, armory: Option<Room>)
    requires TagChoice(rooms, start, exit, keyRoom, g, treasure, trap, armory)
    ensures Eligible(rooms, start, exit, keyRoom, treasure)
    ensures Eligible(rooms, start, exit, keyRoom, trap)
    ensures Eligible(rooms, start, exit, keyRoom, armory)
    ensures treasure.Some? && trap.Some? ==> treasure.value.id != trap.value.id
    ensures treasure.Some? && armory.Some? ==> treasure.value.id != armory.value.id
    ensures trap.Some? && armory.Some? ==> trap.value.id != armory.value.id
  {
    var excluded := {start.id, exit.id} + IdOf(keyRoom);
    var candidates := Excluding(rooms, excluded);
    var sorted := TagCandidates(rooms, start, exit, keyRoom);
    ExcludingMembers(rooms, excluded);
    SortByMembers(candidates, FarFirst(start.centerCell));
    if |sorted| > 0 {
      FilterMembers(sorted, (r: Room) => Leaf(g, r));
      FromTopMember(TreasurePool(g, sorted), treasure);
      var remaining := Excluding(sorted, IdOf(treasure));
      ExcludingMembers(sorted, IdOf(treasure));
      ExcludingMembers(remaining, IdOf(trap));
      FromTopMember(remaining, trap);
      FromTopMember(Excluding(remaining, IdOf(trap)), armory);
    }
  }

  /** With distinct ids, each tag ends on at most one room, and retagging
      changes nothing but tags. */
  lemma RetagSpec(rooms: seq<Room>, treasure: Option<Room>, trap: Option<Room>, armory: Option<Room>)
    requires DistinctIds(rooms)
    ensures var tagged := Retag(rooms, treasure, trap, armory);
            forall i, j :: 0 <= i < |tagged| && 0 <= j < |tagged| && tagged[i].tag == tagged[j].tag != Untagged ==> i == j
    ensures var tagged := Retag(rooms, treasure, trap, armory);
            forall k :: 0 <= k < |tagged| ==> tagged[k].(tag := Untagged) == rooms[k].(tag := Untagged)
  {
    var tagged := Retag(rooms, treasure, trap, armory);
    forall i, j | 0 <= i < |tagged| && 0 <= j < |tagged| && tagged[i].tag == tagged[j].tag != Untagged
      ensures i == j
    {
      assert rooms[i].id == rooms[j].id;
    }
  }

  lemma FromTopMember(pool: seq<Room>, r: Option<Room>)
    requires FromTop(pool, r)
    ensures r.Some? ==> r.value in pool
  {
  }

  /** `assignRoomTags`: clears every tag, then tags one treasure, one trap and
      one armory room, each picked from the top half of its pool; the three
      are returned alongside the retagged rooms. */
  method AssignRoomTags(rooms: seq<Room>, start: Room, exit: Room, keyRoom: Option<Room>, g: Grid, rng: Rng)
    returns (tagged: seq<Room>, treasure: Option<Room>, trap: Option<Room>, armory: Option<Room>)
    requires rng.Valid()
    modifies rng
    ensures rng.Valid() && rng.seed == old(rng.seed)
    ensures tagged == Retag(rooms, treasure, trap, armory)
    ensures TagChoice(rooms, start, exit, keyRoom, g, treasure, trap, armory)
  {
    var sorted := TagCandidates(rooms, start, exit, keyRoom);
    if |sorted| == 0 {
      return Retag(rooms, None, None, None), None, None, None;
    }
    var leaves := LeafRooms(sorted, g);
    treasure := PickRoomFromTop(if |leaves| > 0 then leaves else sorted, rng);
    var remaining := Excluding(sorted, IdOf(treasure));
    trap := PickRoomFromTop(remaining, rng);
    armory := PickRoomFromTop(Excluding(remaining, IdOf(trap)), rng);
    tagged := Retag(rooms, treasure, trap, armory);
  }

  // ---------------------------------------------------------------------
  // The lever cell
  // ---------------------------------------------------------------------

  /** Distance of a room's centre from a cell. */
  function DistanceFrom(c: GridPoint, r: Room): nat
  {
    Manhattan(r.centerCell, c)
  }

  /** The `reduce` of `pickLeverCell` from `best` over `rest`: a room
      strictly farther from `c` replaces the current best. */
  function FarthestFrom(best: Room, rest: seq<Room>, c: GridPoint): Room
    decreases |rest|
  {
    if |rest| == 0 then best
    else FarthestFrom(if DistanceFrom(c, rest[0]) > DistanceFrom(c, best) then rest[0] else best, rest[1..], c)
  }

  /** `rooms.reduce(...)` without an initial value. */
  function Farthest(rooms: seq<Room>, c: GridPoint): Room
    requires |rooms| > 0
  {
    FarthestFrom(rooms[0], rooms[1..], c)
  }

  /** The reduce ends on `best` or on the first entry of `rest` farther
      than `best` and than every entry before it, and nothing is farther. */
  lemma {:induction false} FarthestFromSpec(best: Room, rest: seq<Room>, c: GridPoint)
    ensures var r := FarthestFrom(best, rest, c);
            DistanceFrom(c, best) <= DistanceFrom(c, r) &&
            (forall k :: 0 <= k < |rest| ==> DistanceFrom(c, rest[k]) <= DistanceFrom(c, r))
    ensures var r := FarthestFrom(best, rest, c);
            r == best ||
            exists i :: 0 <= i < |rest| && rest[i] == r && DistanceFrom(c, best) < DistanceFrom(c, r) &&
                        forall k :: 0 <= k < i ==> DistanceFrom(c, rest[k]) < DistanceFrom(c, r)
    decreases |rest|
  {
    if |rest| > 0 {
      var next := if DistanceFrom(c, rest[0]) > DistanceFrom(c, best) then rest[0] else best;
      FarthestFromSpec(next, rest[1..], c);
      var r := FarthestFrom(best, rest, c);
      assert r == FarthestFrom(next, rest[1..], c);
      forall k | 0 <= k < |rest|
        ensures DistanceFrom(c, rest[k]) <= DistanceFrom(c, r)
      {
        if k > 0 {
          assert rest[k] == rest[1..][k - 1];
        }
      }
      if r != next {
        var i :| 0 <= i < |rest[1..]| && rest[1..][i] == r && DistanceFrom(c, next) < DistanceFrom(c, r) &&
                 forall k :: 0 <= k < i ==> DistanceFrom(c, rest[1..][k]) < DistanceFrom(c, r);
        assert rest[i + 1] == r;
        forall k | 0 <= k < i + 1
          ensures DistanceFrom(c, rest[k]) < DistanceFrom(c, r)
        {
          if k > 0 {
            assert rest[k] == rest[1..][k - 1];
          }
        }
      } else if r != best {
        assert r == rest[0];
      }
    }
  }

  /** `Farthest` is a room of the list as far from `c` as any, and the first
      such. */
  lemma FarthestSpec(rooms: seq<Room>, c: GridPoint)
    requires |rooms| > 0
    ensures Farthest(rooms, c) in rooms
    ensures forall r :: r in rooms ==> DistanceFrom(c, r) <= DistanceFrom(c, Farthest(rooms, c))
    ensures exists i :: 0 <= i < |rooms| && rooms[i] == Farthest(rooms, c) &&
                        forall k :: 0 <= k < i ==> DistanceFrom(c, rooms[k]) < DistanceFrom(c, Farthest(rooms, c))
  {
    var r := Farthest(rooms, c);
    FarthestFromSpec(rooms[0], rooms[1..], c);
    forall x | x in rooms
      ensures DistanceFrom(c, x) <= DistanceFrom(c, r)
    {
      var k :| 0 <= k < |rooms| && rooms[k] == x;
      if k > 0 {
        assert rooms[1..][k - 1] == x;
      }
    }
    if r == rooms[0] {
      assert 0 <= 0 < |rooms| && rooms[0] == r;
    } else {
      var i :| 0 <= i < |rooms[1..]| && rooms[1..][i] == r && DistanceFrom(c, rooms[0]) < DistanceFrom(c, r) &&
               forall k :: 0 <= k < i ==> DistanceFrom(c, rooms[1..][k]) < DistanceFrom(c, r);
      assert rooms[i + 1] == r;
      forall k | 0 <= k < i + 1
        ensures DistanceFrom(c, rooms[k]) < DistanceFrom(c, r)
      {
        if k > 0 {
          assert rooms[k] == rooms[1..][k - 1];
        }
      }
    }
  }

  /** The rooms `pickLeverCell` chooses from. */
  function LeverCandidates(rooms: seq<Room>, start: Room, exit: Room, keyRoom: Option<Room>,
                           treasureRoom: Option<Room>): seq<Room>
  {
    Excluding(rooms, {start.id, exit.id} + IdOf(keyRoom) + IdOf(treasureRoom))
  }

  /** `pickLeverCell`: among the rooms that are not start, exit, key or
      treasure room, the one farthest from the treasure room (the first of
      those) when there is a treasure room, else a random one, and the start
      room when there is none; the lever lies on a floor cell of it at least
      3 from the start centre when one is found, else on its centre. */
  method PickLeverCell(rooms: seq<Room>, start: Room, exit: Room, keyRoom: Option<Room>,
                       treasureRoom: Option<Room>, g: Grid, rng: Rng)
    returns (cell: GridPoint, ghost chosen: Room)
    requires WellFormed(g) && AllInGrid(rooms) && RoomInGrid(start) && rng.Valid()
    modifies rng
    ensures rng.Valid() && rng.seed == old(rng.seed)
    ensures var candidates := LeverCandidates(rooms, start, exit, keyRoom, treasureRoom);
            && (|candidates| == 0 ==> chosen == start)
            && (|candidates| > 0 ==> chosen in candidates)
            && (|candidates| > 0 && treasureRoom.Some? ==> chosen == Farthest(candidates, treasureRoom.value.centerCell))
            && (|candidates| > 0 && treasureRoom.None? ==>
                  |rng.drawn| > |old(rng.drawn)| &&
                  chosen == candidates[ScaledIndex(rng.drawn[|old(rng.drawn)|], |candidates|)])
    ensures CellOrCentre(g, chosen, cell)
  {
    var candidates := LeverCandidates(rooms, start, exit, keyRoom, treasureRoom);
    ExcludingMembers(rooms, {start.id, exit.id} + IdOf(keyRoom) + IdOf(treasureRoom));
    var room := if |candidates| > 0 then candidates[0] else start;
    if treasureRoom.Some? && |candidates| > 0 {
      room := Farthest(candidates, treasureRoom.value.centerCell);
      FarthestSpec(candidates, treasureRoom.value.centerCell);
    } else if |candidates| > 0 {
      var i := DrawIndex(rng, |candidates|);
      room := candidates[i];
    }
    chosen := room;
    ghost var before := rng.drawn;
    var found, _ := GetRandomFloorCellInRoomWithRng(room, 3, start.centerCell, g, rng);
    assert rng.drawn[..|before|] == before;
    cell := if found.Some? then found.value else room.centerCell;
  }

  // ---------------------------------------------------------------------
  // The treasure
  // ---------------------------------------------------------------------

  /** `['medkit', 'shield', 'scanner']`. */
  const TreasureKinds: seq<Consumable> := [Medkit, Shield, Scanner]

  /** `createTreasureSpawn`: one draw picks the kind, then a floor cell of
      the room at least 4 from the reference cell, or the room's centre. */
  method CreateTreasureSpawn(room: Room, referenceCell: GridPoint, g: Grid, rng: Rng) returns (t: TreasureSpawn)
    requires WellFormed(g) && RoomInGrid(room) && rng.Valid()
    modifies rng
    ensures rng.Valid() && rng.seed == old(rng.seed) && |rng.drawn| > |old(rng.drawn)|
    ensures t.kind == TreasureKinds[ScaledIndex(rng.drawn[|old(rng.drawn)|], 3)]
    ensures CellOrCentre(g, room, t.cell)
  {
    var i := DrawIndex(rng, |TreasureKinds|);
    ghost var afterKind := rng.drawn;
    var found, _ := GetRandomFloorCellInRoomWithRng(room, 4, referenceCell, g, rng);
    assert rng.drawn[|old(rng.drawn)|] == afterKind[|old(rng.drawn)|];
    t := TreasureSpawn(if found.Some? then found.value else room.centerCell, TreasureKinds[i]);
  }
}
