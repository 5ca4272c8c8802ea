/** `createLevelState` (src/game/level.ts): one seeded generator drives the
    dungeon, the key, the tags, the spawn lists, the lever and the treasure,
    in that order, so the seed alone fixes the level. */
module LevelGen {
  import opened State
  import opened Cells = Grid
  import opened SeededRandom
  import opened Sorting
  import opened Dungeon
  import opened Spawns
  import opened SpawnLists
  import opened Reachability

  /** `rooms.find((room) => room.tag === tag) ?? null`. */
  function FirstTagged(rooms: seq<Room>, tag: RoomTag): Option<Room>
  {
    if |rooms| == 0 then None
    else if rooms[0].tag == tag then Some(rooms[0])
    else FirstTagged(rooms[1..], tag)
  }

  /** The search is null exactly when no room carries the tag, and otherwise
      finds the first room that does. */
  lemma {:induction false} FirstTaggedSpec(rooms: seq<Room>, tag: RoomTag)
    ensures FirstTagged(rooms, tag).None? <==> forall k :: 0 <= k < |rooms| ==> rooms[k].tag != tag
    ensures FirstTagged(rooms, tag).Some? ==>
              exists i :: 0 <= i < |rooms| && rooms[i] == FirstTagged(rooms, tag).value && rooms[i].tag == tag &&
                          forall k :: 0 <= k < i ==> rooms[k].tag != tag
    decreases |rooms|
  {
    if |rooms| > 0 && rooms[0].tag != tag {
      FirstTaggedSpec(rooms[1..], tag);
      var rest := rooms[1..];
      assert forall k :: 1 <= k < |rooms| ==> rooms[k] == rest[k - 1];
      if FirstTagged(rest, tag).Some? {
        var i :| 0 <= i < |rest| && rest[i] == FirstTagged(rest, tag).value && rest[i].tag == tag &&
                 forall k :: 0 <= k < i ==> rest[k].tag != tag;
        assert rooms[i + 1] == rest[i];
      }
    } else if |rooms| > 0 {
      assert rooms[0] == FirstTagged(rooms, tag).value;
    }
  }

  /** Retagging keeps every room's rectangle. */
  lemma RetagInGrid(rooms: seq<Room>, treasure: Option<Room>, trap: Option<Room>, armory: Option<Room>)
    requires AllInGrid(rooms)
    ensures AllInGrid(Retag(rooms, treasure, trap, armory))
  {
    var tagged := Retag(rooms, treasure, trap, armory);
    forall r | r in tagged
      ensures RoomInGrid(r)
    {
      var k :| 0 <= k < |tagged| && tagged[k] == r;
      assert rooms[k] in rooms;
    }
  }

  /** Retagging keeps every room's centre. */
  lemma RetagFarthest(rooms: seq<Room>, treasure: Option<Room>, trap: Option<Room>, armory: Option<Room>,
                      start: Room, exit: Room)
    requires ExitFarthest(rooms, start, exit)
    ensures ExitFarthest(Retag(rooms, treasure, trap, armory), start, exit)
  {
    var tagged := Retag(rooms, treasure, trap, armory);
    forall r | r in tagged
      ensures Manhattan(r.centerCell, start.centerCell) <= Manhattan(exit.centerCell, start.centerCell)
    {
      var k :| 0 <= k < |tagged| && tagged[k] == r;
      assert rooms[k] in rooms && rooms[k].centerCell == r.centerCell;
    }
  }

  /** Laid-out rooms fit the grid. */
  lemma LaidOutInGrid(g: Grid, rooms: seq<Room>)
    requires RoomsLaidOut(g, rooms)
    ensures AllInGrid(rooms)
  {
  }

  /** Laid-out rooms have their centres inside the grid. */
  lemma LaidOutCentres(g: Grid, rooms: seq<Room>)
    requires RoomsLaidOut(g, rooms)
    ensures forall r :: r in rooms ==> InBounds(r.centerCell)
  {
    forall r | r in rooms
      ensures InBounds(r.centerCell)
    {
      CentreInner(r);
    }
  }

  /** The same rooms, in another order, fit the grid. */
  lemma PermutedInGrid(rooms: seq<Room>, other: seq<Room>)
    requires AllInGrid(rooms) && multiset(other) == multiset(rooms)
    ensures AllInGrid(other) && |other| == |rooms|
  {
    assert |multiset(other)| == |other| && |multiset(rooms)| == |rooms|;
    forall r | r in other
      ensures RoomInGrid(r)
    {
      assert r in multiset(other);
    }
  }

  /** Every room's centre cell is floor. */
  ghost predicate CentresFloor(g: Grid, rooms: seq<Room>)
  {
    forall r :: r in rooms ==> IsFloor(g, r.centerCell)
  }

  /** A carved room holds its centre. */
  lemma LaidOutCentresFloor(g: Grid, rooms: seq<Room>)
    requires RoomsLaidOut(g, rooms)
    ensures CentresFloor(g, rooms)
  {
    forall r | r in rooms
      ensures IsFloor(g, r.centerCell)
    {
      assert InRoom(r, r.centerCell);
    }
  }

  /** Retagging keeps every room's centre floor. */
  lemma RetagCentresFloor(g: Grid, rooms: seq<Room>, treasure: Option<Room>, trap: Option<Room>, armory: Option<Room>)
    requires CentresFloor(g, rooms)
    ensures CentresFloor(g, Retag(rooms, treasure, trap, armory))
  {
    var tagged := Retag(rooms, treasure, trap, armory);
    forall r | r in tagged
      ensures IsFloor(g, r.centerCell)
    {
      var k :| 0 <= k < |tagged| && tagged[k] == r;
      assert rooms[k] in rooms;
    }
  }

  /** Reordering keeps every room's centre floor. */
  lemma PermutedCentresFloor(g: Grid, rooms: seq<Room>, other: seq<Room>)
    requires CentresFloor(g, rooms) && multiset(other) == multiset(rooms)
    ensures CentresFloor(g, other)
  {
    forall r | r in other
      ensures IsFloor(g, r.centerCell)
    {
      assert r in multiset(other);
    }
  }

  /** A pick among rooms with floor centres, or the start room when there is
      no candidate, lands on floor: on a floor cell of the room or on its
      centre. */
  lemma PickedFloor(g: Grid, rooms: seq<Room>, candidates: seq<Room>, start: Room, chosen: Room, cell: GridPoint)
    requires CentresFloor(g, rooms) && IsFloor(g, start.centerCell)
    requires forall r :: r in candidates ==> r in rooms
    requires (|candidates| == 0 ==> chosen == start) && (|candidates| > 0 ==> chosen in candidates)
    requires CellOrCentre(g, chosen, cell)
    ensures IsFloor(g, cell)
  {
  }

  /** Each room of `rooms` has its centre no farther from `start` than the
      exit's centre is. */
  predicate ExitFarthest(rooms: seq<Room>, start: Room, exit: Room)
  {
    forall r :: r in rooms ==> Manhattan(r.centerCell, start.centerCell) <= Manhattan(exit.centerCell, start.centerCell)
  }

  /** The first half of `createLevelState`: the dungeon, the key cell and
      the room tags, with the treasure room found by its tag. */
  method LayOutLevel(rng: Rng)
    returns (grid: Grid, tagged: seq<Room>, startRoom: Room, exitRoom: Room,
             keyCell: GridPoint, keyRoom: Option<Room>, treasureRoom: Option<Room>)
    requires rng.Valid()
    modifies rng
    ensures rng.Valid() && rng.seed == old(rng.seed)
    ensures WellFormed(grid) && 1 <= |tagged| <= 12 && AllInGrid(tagged) && RoomInGrid(startRoom)
    ensures ExitFarthest(tagged, startRoom, exitRoom)
    ensures treasureRoom == FirstTagged(tagged, Treasure)
    ensures treasureRoom.Some? ==> treasureRoom.value in tagged && treasureRoom.value.tag == Treasure
    ensures InBounds(keyCell) && InBounds(exitRoom.centerCell)
    ensures FloorConnected(grid) && CentresFloor(grid, tagged)
    ensures IsFloor(grid, startRoom.centerCell) && IsFloor(grid, exitRoom.centerCell) && IsFloor(grid, keyCell)
  {
    var rooms;
    ghost var attempts, turns, placed, draws;
    grid, rooms, exitRoom, attempts, turns, placed, draws := GenerateDungeon(rng);
    tagged, startRoom, keyCell, keyRoom, treasureRoom := TagRooms(grid, rooms, exitRoom, rng);
  }

  /** The key cell and the room tags of `createLevelState`, on a generated
      dungeon whose exit is farthest from its first room. */
  method TagRooms(grid: Grid, rooms: seq<Room>, exitRoom: Room, rng: Rng)
    returns (tagged: seq<Room>, startRoom: Room, keyCell: GridPoint, keyRoom: Option<Room>, treasureRoom: Option<Room>)
    requires WellFormed(grid) && 1 <= |rooms| <= 12 && RoomsLaidOut(grid, rooms) && exitRoom in rooms
    requires forall r :: r in rooms ==> StartDistance(rooms, r) <= StartDistance(rooms, exitRoom)
    requires rng.Valid()
    modifies rng
    ensures rng.Valid() && rng.seed == old(rng.seed)
    ensures 1 <= |tagged| <= 12 && AllInGrid(tagged) && RoomInGrid(startRoom)
    ensures ExitFarthest(tagged, startRoom, exitRoom)
    ensures treasureRoom == FirstTagged(tagged, Treasure)
    ensures treasureRoom.Some? ==> treasureRoom.value in tagged && treasureRoom.value.tag == Treasure
    ensures InBounds(keyCell) && InBounds(exitRoom.centerCell)
    ensures CentresFloor(grid, tagged)
    ensures IsFloor(grid, startRoom.centerCell) && IsFloor(grid, exitRoom.centerCell) && IsFloor(grid, keyCell)
  {
    LaidOutInGrid(grid, rooms);
    LaidOutCentresFloor(grid, rooms);
    startRoom := rooms[0];
    keyCell, keyRoom := PlaceKey(grid, rooms, startRoom, exitRoom, rng);
    LaidOutCentres(grid, rooms);
    ExcludingMembers(rooms, {startRoom.id, exitRoom.id});
    var treasure, trap, armory;
    tagged, treasure, trap, armory := AssignRoomTags(rooms, startRoom, exitRoom, keyRoom, grid, rng);
    RetagInGrid(rooms, treasure, trap, armory);
    RetagFarthest(rooms, treasure, trap, armory, startRoom, exitRoom);
    RetagCentresFloor(grid, rooms, treasure, trap, armory);
    treasureRoom := FirstTagged(tagged, Treasure);
    FirstTaggedSpec(tagged, Treasure);
  }

  /** The key of `createLevelState`: its cell, on a floor cell of its room
      or on that room's centre, and the room holding that cell. */
  method PlaceKey(grid: Grid, rooms: seq<Room>, startRoom: Room, exitRoom: Room, rng: Rng)
    returns (keyCell: GridPoint, keyRoom: Option<Room>)
    requires WellFormed(grid) && AllInGrid(rooms) && RoomInGrid(startRoom) && rng.Valid()
    requires CentresFloor(grid, rooms) && IsFloor(grid, startRoom.centerCell)
    modifies rng
    ensures rng.Valid() && rng.seed == old(rng.seed)
    ensures keyRoom == FindRoomForCell(rooms, keyCell)
    ensures IsFloor(grid, keyCell) && InBounds(keyCell)
  {
    ghost var keyChoice;
    keyCell, keyChoice := PickKeyCell(rooms, startRoom, exitRoom, grid, rng);
    ExcludingMembers(rooms, {startRoom.id, exitRoom.id});
    PickedFloor(grid, rooms, KeyCandidates(rooms, startRoom, exitRoom), startRoom, keyChoice, keyCell);
    keyRoom := FindRoomForCell(rooms, keyCell);
  }

  /** The second half of `createLevelState`: the spawn lists, the lever and
      the treasure, drawn in the source's order. */
  method Populate(grid: Grid, tagged: seq<Room>, startRoom: Room, exitRoom: Room, keyCell: GridPoint,
                  keyRoom: Option<Room>, treasureRoom: Option<Room>, rng: Rng)
    returns (roomsAfter: seq<Room>, enemySpawns: seq<SpawnInfo>, propSpawns: seq<SpawnInfo>,
             potionSpawns: seq<SpawnInfo>, leverCell: GridPoint, treasureSpawn: Option<TreasureSpawn>)
    requires WellFormed(grid) && AllInGrid(tagged) && RoomInGrid(startRoom) && rng.Valid()
    requires treasureRoom.Some? ==> treasureRoom.value in tagged
    requires CentresFloor(grid, tagged) && IsFloor(grid, startRoom.centerCell)
    modifies rng
    ensures rng.Valid() && rng.seed == old(rng.seed)
    ensures multiset(roomsAfter) == multiset(tagged)
    ensures forall k :: 0 <= k < |enemySpawns| ==> IsFloor(grid, enemySpawns[k].cell)
    ensures forall k :: 0 <= k < |propSpawns| ==> IsFloor(grid, propSpawns[k].cell) && propSpawns[k].kind in PropKinds
    ensures DistinctCells(propSpawns) && DistinctCells(potionSpawns) && |potionSpawns| <= 4
    ensures forall k :: 0 <= k < |potionSpawns| ==> IsFloor(grid, potionSpawns[k].cell) && potionSpawns[k].cell != keyCell
    ensures treasureSpawn.Some? <==> treasureRoom.Some?
    ensures treasureSpawn.Some? ==> treasureSpawn.value.kind in TreasureKinds
    ensures IsFloor(grid, leverCell) && (treasureSpawn.Some? ==> IsFloor(grid, treasureSpawn.value.cell))
  {
    ghost var fromRooms, roomPicks, trapPicks, propPicks, potionSources;
    enemySpawns, roomsAfter, fromRooms, roomPicks, trapPicks :=
      GenerateEnemySpawns(tagged, startRoom.centerCell, 10, grid, rng);
    assert forall k :: 0 <= k < |fromRooms| ==> enemySpawns[k] == fromRooms[k];
    assert forall k :: |fromRooms| <= k < |enemySpawns| ==> enemySpawns[k] == enemySpawns[|fromRooms|..][k - |fromRooms|];
    PermutedInGrid(tagged, roomsAfter);
    propSpawns, propPicks := GeneratePropSpawns(roomsAfter, startRoom, exitRoom, grid, rng);
    potionSpawns, potionSources := GeneratePotionSpawns(roomsAfter, startRoom, exitRoom, keyCell, grid, rng);
    leverCell, treasureSpawn := PlaceObjectives(grid, roomsAfter, tagged, startRoom, exitRoom, keyRoom, treasureRoom, rng);
  }

  /** The lever and then the treasure of `createLevelState`, each on a floor
      cell of its room or on its centre. */
  method PlaceObjectives(grid: Grid, roomsAfter: seq<Room>, tagged: seq<Room>, startRoom: Room, exitRoom: Room,
                         keyRoom: Option<Room>, treasureRoom: Option<Room>, rng: Rng)
    returns (leverCell: GridPoint, treasureSpawn: Option<TreasureSpawn>)
    requires WellFormed(grid) && AllInGrid(roomsAfter) && AllInGrid(tagged) && RoomInGrid(startRoom) && rng.Valid()
    requires treasureRoom.Some? ==> treasureRoom.value in tagged
    requires multiset(roomsAfter) == multiset(tagged) && CentresFloor(grid, tagged) && IsFloor(grid, startRoom.centerCell)
    modifies rng
    ensures rng.Valid() && rng.seed == old(rng.seed)
    ensures treasureSpawn.Some? <==> treasureRoom.Some?
    ensures treasureSpawn.Some? ==> treasureSpawn.value.kind in TreasureKinds
    ensures IsFloor(grid, leverCell) && (treasureSpawn.Some? ==> IsFloor(grid, treasureSpawn.value.cell))
  {
    ghost var leverRoom;
    PermutedCentresFloor(grid, tagged, roomsAfter);
    leverCell, leverRoom := PickLeverCell(roomsAfter, startRoom, exitRoom, keyRoom, treasureRoom, grid, rng);
    ExcludingMembers(roomsAfter, {startRoom.id, exitRoom.id} + IdOf(keyRoom) + IdOf(treasureRoom));
    PickedFloor(grid, roomsAfter, LeverCandidates(roomsAfter, startRoom, exitRoom, keyRoom, treasureRoom),
                startRoom, leverRoom, leverCell);
    treasureSpawn := None;
    if treasureRoom.Some? {
      var t := CreateTreasureSpawn(treasureRoom.value, startRoom.centerCell, grid, rng);
      treasureSpawn := Some(t);
    }
  }

  /** `createLevelState` for a seed drawn outside the model
      (`Math.floor(Math.random() * 1e9)`). The level's room list is the
      tagged list as the enemy spawner leaves it; spawns lie on floor cells;
      props and potions keep to distinct cells and potions avoid the key
      cell; the fog of war starts clear of discoveries and every objective
      flag starts false; with every door open the key, the lever, the exit
      centre and the treasure are reached from the start centre. */
  method CreateLevelState(seed: int) returns (level: LevelState)
    requires 0 <= seed < 1_000_000_000
    ensures fresh(level) && fresh(level.discovered)
    ensures level.Valid() && level.seed == seed
    ensures 1 <= |level.rooms| <= 12 && AllInGrid(level.rooms)
    ensures ExitFarthest(level.rooms, level.startRoom, level.exitRoom)
    ensures forall k :: 0 <= k < |level.enemySpawns| ==> IsFloor(level.grid, level.enemySpawns[k].cell)
    ensures forall k :: 0 <= k < |level.propSpawns| ==>
              IsFloor(level.grid, level.propSpawns[k].cell) && level.propSpawns[k].kind in PropKinds
    ensures DistinctCells(level.propSpawns) && DistinctCells(level.potionSpawns) && |level.potionSpawns| <= 4
    ensures forall k :: 0 <= k < |level.potionSpawns| ==>
              IsFloor(level.grid, level.potionSpawns[k].cell) && level.potionSpawns[k].cell != level.keyCell
    ensures level.treasureSpawn.Some? <==> FirstTagged(level.rooms, Treasure).Some?
    ensures level.treasureSpawn.Some? ==> level.treasureSpawn.value.kind in TreasureKinds
    ensures level.discovered.Length0 == GridHeight && level.discovered.Length1 == GridWidth
    ensures forall y, x :: 0 <= y < GridHeight && 0 <= x < GridWidth ==> !level.discovered[y, x]
    ensures !level.hasKey && !level.keyDiscovered && !level.portalDiscovered && !level.leverActivated
    ensures FloorConnected(level.grid)
    ensures Reaches(level.grid, {}, level.startRoom.centerCell, level.keyCell)
    ensures Reaches(level.grid, {}, level.startRoom.centerCell, level.leverCell)
    ensures Reaches(level.grid, {}, level.startRoom.centerCell, level.exitRoom.centerCell)
    ensures level.treasureSpawn.Some? ==> Reaches(level.grid, {}, level.startRoom.centerCell, level.treasureSpawn.value.cell)
  {
    var rng := new Rng(seed);
    var grid, tagged, startRoom, exitRoom, keyCell, keyRoom, treasureRoom := LayOutLevel(rng);
    var roomsAfter, enemySpawns, propSpawns, potionSpawns, leverCell, treasureSpawn :=
      Populate(grid, tagged, startRoom, exitRoom, keyCell, keyRoom, treasureRoom, rng);
    PermutedInGrid(tagged, roomsAfter);
    PermutedFarthest(tagged, roomsAfter, startRoom, exitRoom);
    PermutedTagged(tagged, roomsAfter, Treasure);
    var discovered := CreateDiscoveryGrid();
    level := new LevelState(grid, roomsAfter, startRoom, exitRoom, keyCell, leverCell, treasureSpawn,
                            enemySpawns, propSpawns, potionSpawns, seed, discovered);
  }

  lemma PermutedFarthest(rooms: seq<Room>, other: seq<Room>, start: Room, exit: Room)
    requires ExitFarthest(rooms, start, exit) && multiset(other) == multiset(rooms)
    ensures ExitFarthest(other, start, exit)
  {
    forall r | r in other
      ensures Manhattan(r.centerCell, start.centerCell) <= Manhattan(exit.centerCell, start.centerCell)
    {
      assert r in multiset(other);
    }
  }

  /** Whether some room carries a tag does not depend on the order. */
  lemma PermutedTagged(rooms: seq<Room>, other: seq<Room>, tag: RoomTag)
    requires multiset(other) == multiset(rooms)
    ensures FirstTagged(other, tag).Some? <==> FirstTagged(rooms, tag).Some?
  {
    FirstTaggedSpec(rooms, tag);
    FirstTaggedSpec(other, tag);
    if FirstTagged(rooms, tag).Some? {
      var i :| 0 <= i < |rooms| && rooms[i].tag == tag;
      assert rooms[i] in multiset(other);
      assert rooms[i] in other;
      var j :| 0 <= j < |other| && other[j] == rooms[i];
      assert other[j].tag == tag;
    }
    if FirstTagged(other, tag).Some? {
      var j :| 0 <= j < |other| && other[j].tag == tag;
      assert other[j] in multiset(rooms);
      assert other[j] in rooms;
      var i :| 0 <= i < |rooms| && rooms[i] == other[j];
      assert rooms[i].tag == tag;
    }
  }
}
