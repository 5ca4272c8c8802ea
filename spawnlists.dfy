/** The enemy, prop and potion spawn lists of a new level
    (src/game/level.ts). Every spawn lies on a floor cell of a room it was
    drawn for; the enemy loop gives each room at most one spawn, and the
    `occupied` sets keep prop and potion cells apart. */
module SpawnLists {
  import opened State
  import opened Cells = Grid
  import opened SeededRandom
  import opened Sorting
  import opened Spawns

  // ---------------------------------------------------------------------
  // Where spawns come from
  // ---------------------------------------------------------------------

  /** Spawn `k` lies on a floor cell of `rooms[picks[k]]`. */
  predicate PlacedIn(g: Grid, rooms: seq<Room>, spawns: seq<SpawnInfo>, picks: seq<int>)
  {
    |picks| == |spawns| &&
    forall k :: 0 <= k < |spawns| ==>
      0 <= picks[k] < |rooms| && InRoom(rooms[picks[k]], spawns[k].cell) && IsFloor(g, spawns[k].cell)
  }

  predicate Increasing(picks: seq<int>)
  {
    forall k, l :: 0 <= k < l < |picks| ==> picks[k] < picks[l]
  }

  predicate NonDecreasing(picks: seq<int>)
  {
    forall k, l :: 0 <= k < l < |picks| ==> picks[k] <= picks[l]
  }

  /** No two spawns share a cell. */
  predicate DistinctCells(spawns: seq<SpawnInfo>)
  {
    forall k, l :: 0 <= k < l < |spawns| ==> spawns[k].cell != spawns[l].cell
  }

  function CellsOf(spawns: seq<SpawnInfo>): set<GridPoint>
  {
    set k | 0 <= k < |spawns| :: spawns[k].cell
  }

  /** Strictly increasing picks below `n` number at most `n`. */
  lemma {:induction false} IncreasingBound(picks: seq<int>, n: int)
    requires Increasing(picks)
    requires 0 <= n && forall k :: 0 <= k < |picks| ==> 0 <= picks[k] < n
    ensures |picks| <= n
    decreases |picks|
  {
    if |picks| > 0 {
      var init := picks[..|picks| - 1];
      var last := picks[|picks| - 1];
      assert forall k :: 0 <= k < |init| ==> init[k] == picks[k] && init[k] < last;
      IncreasingBound(init, last);
      assert last < n;
    }
  }

  /** Picking a new, larger index keeps the picks increasing. */
  lemma IncreasingSnoc(picks: seq<int>, i: int)
    requires Increasing(picks)
    requires forall k :: 0 <= k < |picks| ==> picks[k] < i
    ensures Increasing(picks + [i])
  {
  }

  /** Adding a spawn on a floor cell of `rooms[i]` keeps the placement. */
  lemma PlacedSnoc(g: Grid, rooms: seq<Room>, spawns: seq<SpawnInfo>, picks: seq<int>, s: SpawnInfo, i: int)
    requires PlacedIn(g, rooms, spawns, picks)
    requires 0 <= i < |rooms| && InRoom(rooms[i], s.cell) && IsFloor(g, s.cell)
    ensures PlacedIn(g, rooms, spawns + [s], picks + [i])
  {
    var sp := spawns + [s];
    var pk := picks + [i];
    forall k | 0 <= k < |sp|
      ensures 0 <= pk[k] < |rooms| && InRoom(rooms[pk[k]], sp[k].cell) && IsFloor(g, sp[k].cell)
    {
      if k < |spawns| {
        assert sp[k] == spawns[k] && pk[k] == picks[k];
      }
    }
  }

  // ---------------------------------------------------------------------
  // The spawn lists as functions of the draws
  // ---------------------------------------------------------------------
  // Each function reads the generator's outputs draws(pos), draws(pos + 1),
  // ... in the order the source calls the generator.

  /** A list built from the draws (after `acc`, what was built before) and
      the index of the first output left unread. */
  datatype Built = Built(spawns: seq<SpawnInfo>, next: nat)

  /** The room loop of `generateEnemySpawns` from slot `i` on: slot `i`
      searches `available[i]` for a cell at least 8 from the start cell and
      spawns there when the search finds one. */
  function EnemySlots(available: seq<Room>, startCell: GridPoint, count: int, g: Grid,
                      draws: nat -> bv32, i: nat, pos: nat, acc: seq<SpawnInfo>): Built
    decreases |available| - i
  {
    if i < count && i < |available| then
      var f := FloorCellSearch(g, available[i], 8, startCell, draws, pos, 0);
      EnemySlots(available, startCell, count, g, draws, i + 1, f.next,
                 if f.cell.Some? then acc + [SpawnInfo(f.cell.value, EnemyKindAt(i, RangedCount(count)))] else acc)
    else
      Built(acc, pos)
  }

  /** The trap loop of `generateEnemySpawns` from trap room `i` on: a melee
      spawn wherever the search for a cell at least 4 from the start finds
      one. */
  function TrapSlots(traps: seq<Room>, startCell: GridPoint, g: Grid,
                     draws: nat -> bv32, i: nat, pos: nat, acc: seq<SpawnInfo>): Built
    decreases |traps| - i
  {
    if i < |traps| then
      var f := FloorCellSearch(g, traps[i], 4, startCell, draws, pos, 0);
      TrapSlots(traps, startCell, g, draws, i + 1, f.next,
                if f.cell.Some? then acc + [SpawnInfo(f.cell.value, "melee")] else acc)
    else
      Built(acc, pos)
  }

  /** `generateEnemySpawns`: the room slots over the sorted far rooms, then
      the trap rooms of the room list as the sort left it. */
  function EnemySpawns(rooms: seq<Room>, startCell: GridPoint, count: int, g: Grid,
                       draws: nat -> bv32, pos: nat): Built
  {
    var roomsAfter := if |FarFromStart(rooms, startCell)| > 0 then rooms else EnemyRooms(rooms, startCell);
    var fromRooms := EnemySlots(EnemyRooms(rooms, startCell), startCell, count, g, draws, 0, pos, []);
    var fromTraps := TrapSlots(TrapRooms(roomsAfter), startCell, g, draws, 0, fromRooms.next, []);
    Built(fromRooms.spawns + fromTraps.spawns, fromTraps.next)
  }

  /** Some spawn of `acc` is at `c`: the `occupied` set's membership test,
      read off the list (the last spawn first). */
  predicate Taken(acc: seq<SpawnInfo>, c: GridPoint)
  {
    |acc| > 0 && (acc[|acc| - 1].cell == c || Taken(acc[..|acc| - 1], c))
  }

  /** `Taken` is membership in the set of cells of the list. */
  lemma {:induction false} TakenCells(acc: seq<SpawnInfo>, c: GridPoint)
    ensures Taken(acc, c) <==> c in CellsOf(acc)
  {
    if |acc| > 0 {
      TakenCells(acc[..|acc| - 1], c);
      assert CellsOf(acc) == CellsOf(acc[..|acc| - 1]) + {acc[|acc| - 1].cell} by {
        forall x ensures x in CellsOf(acc) <==> x in CellsOf(acc[..|acc| - 1]) + {acc[|acc| - 1].cell} {
          if x in CellsOf(acc) {
            var k :| 0 <= k < |acc| && acc[k].cell == x;
            if k < |acc| - 1 { assert acc[..|acc| - 1][k] == acc[k]; }
          }
          if x in CellsOf(acc[..|acc| - 1]) {
            var k :| 0 <= k < |acc| - 1 && acc[..|acc| - 1][k].cell == x;
            assert acc[k].cell == x;
          }
        }
      }
    }
  }

  /** One try of the prop loop of `room`: the search for a cell at least 4
      from the start centre; a found cell not yet taken gets a prop whose
      kind the next draw picks. */
  function PropTry(room: Room, startCell: GridPoint, g: Grid,
                   draws: nat -> bv32, pos: nat, acc: seq<SpawnInfo>): Built
  {
    var f := FloorCellSearch(g, room, 4, startCell, draws, pos, 0);
    if f.cell.Some? && !Taken(acc, f.cell.value) then
      Built(acc + [SpawnInfo(f.cell.value, PropKinds[ScaledIndex(draws(f.next), |PropKinds|)])], f.next + 1)
    else
      Built(acc, f.next)
  }

  /** A try that finds a free cell adds one prop, its kind read from the
      draw after the search. */
  lemma PropTryAccepted(room: Room, startCell: GridPoint, g: Grid, draws: nat -> bv32, pos: nat,
                        acc: seq<SpawnInfo>, cell: GridPoint, next: nat, k: int)
    requires FloorCellSearch(g, room, 4, startCell, draws, pos, 0) == Found(Some(cell), next)
    requires !Taken(acc, cell) && k == ScaledIndex(draws(next), |PropKinds|)
    ensures PropTry(room, startCell, g, draws, pos, acc) == Built(acc + [SpawnInfo(cell, PropKinds[k])], next + 1)
  {
  }

  /** A try that finds no cell, or a taken one, adds nothing. */
  lemma PropTryRejected(room: Room, startCell: GridPoint, g: Grid, draws: nat -> bv32, pos: nat,
                        acc: seq<SpawnInfo>, cell: Option<GridPoint>, next: nat)
    requires FloorCellSearch(g, room, 4, startCell, draws, pos, 0) == Found(cell, next)
    requires !(cell.Some? && !Taken(acc, cell.value))
    ensures PropTry(room, startCell, g, draws, pos, acc) == Built(acc, next)
  {
  }

  /** A try whose search, recorded in `found`, finds a free cell, followed by
      the kind draw `drawn[|found|]`, adds that prop, whatever the draws
      agree with the record. */
  lemma PropAcceptedRecorded(room: Room, startCell: GridPoint, g: Grid, acc: seq<SpawnInfo>,
                             found: seq<bv32>, drawn: seq<bv32>, n0: nat, cell: Option<GridPoint>, k: int)
    requires |drawn| == |found| + 1 && drawn[..|found|] == found
    requires forall draws :: Records(found, draws, n0) ==>
               FloorCellSearch(g, room, 4, startCell, draws, n0, 0) == Found(cell, |found|)
    requires cell.Some? && !Taken(acc, cell.value) && k == ScaledIndex(drawn[|found|], |PropKinds|)
    ensures forall draws :: Records(drawn, draws, n0) ==>
              PropTry(room, startCell, g, draws, n0, acc) == Built(acc + [SpawnInfo(cell.value, PropKinds[k])], |drawn|)
  {
    forall draws | Records(drawn, draws, n0)
      ensures PropTry(room, startCell, g, draws, n0, acc) == Built(acc + [SpawnInfo(cell.value, PropKinds[k])], |drawn|)
    {
      RecordsPrefix(found, drawn, draws, n0);
      if n0 <= |found| {
        RecordsAt(drawn, draws, n0, |found|);
      }
      PropTryAccepted(room, startCell, g, draws, n0, acc, cell.value, |found|, k);
    }
  }

  /** A try whose search, recorded in `drawn`, finds no cell or a taken one
      adds nothing, whatever the draws agree with the record. */
  lemma PropRejectedRecorded(room: Room, startCell: GridPoint, g: Grid, acc: seq<SpawnInfo>,
                             drawn: seq<bv32>, n0: nat, cell: Option<GridPoint>)
    requires forall draws :: Records(drawn, draws, n0) ==>
               FloorCellSearch(g, room, 4, startCell, draws, n0, 0) == Found(cell, |drawn|)
    requires !(cell.Some? && !Taken(acc, cell.value))
    ensures forall draws :: Records(drawn, draws, n0) ==>
              PropTry(room, startCell, g, draws, n0, acc) == Built(acc, |drawn|)
  {
    forall draws | Records(drawn, draws, n0)
      ensures PropTry(room, startCell, g, draws, n0, acc) == Built(acc, |drawn|)
    {
      PropTryRejected(room, startCell, g, draws, n0, acc, cell, |drawn|);
    }
  }

  /** `tries` more tries of the prop loop of `room`. */
  function PropTries(room: Room, startCell: GridPoint, g: Grid,
                     draws: nat -> bv32, tries: int, pos: nat, acc: seq<SpawnInfo>): Built
    decreases tries
  {
    if tries <= 0 then
      Built(acc, pos)
    else
      var b := PropTry(room, startCell, g, draws, pos, acc);
      PropTries(room, startCell, g, draws, tries - 1, b.next, b.spawns)
  }

  /** One room's props: one draw gives the number of tries. */
  function RoomProps(room: Room, startCell: GridPoint, g: Grid,
                     draws: nat -> bv32, pos: nat, acc: seq<SpawnInfo>): Built
  {
    PropTries(room, startCell, g, draws, RangeValue(draws(pos), PropMin(room), PropMax(room)), pos + 1, acc)
  }

  /** The rooms from `i` on; the start and exit rooms draw nothing. */
  function PropRooms(rooms: seq<Room>, start: Room, exit: Room, g: Grid,
                     draws: nat -> bv32, i: nat, pos: nat, acc: seq<SpawnInfo>): Built
    decreases |rooms| - i
  {
    if i < |rooms| then
      if PropRoom(rooms, start, exit, i) then
        var b := RoomProps(rooms[i], start.centerCell, g, draws, pos, acc);
        PropRooms(rooms, start, exit, g, draws, i + 1, b.next, b.spawns)
      else
        PropRooms(rooms, start, exit, g, draws, i + 1, pos, acc)
    else
      Built(acc, pos)
  }

  /** `generatePropSpawns`. */
  function PropSpawns(rooms: seq<Room>, start: Room, exit: Room, g: Grid,
                      draws: nat -> bv32, pos: nat): Built
  {
    PropRooms(rooms, start, exit, g, draws, 0, pos, [])
  }

  /** One try of the potion loop: one draw picks a candidate room (none
      when there is no candidate, and the start room is searched), then the
      search for a cell at least 4 from the start centre; a found cell that
      is neither the key cell nor taken gets a potion. */
  function PotionTry(candidates: seq<Room>, start: Room, keyCell: GridPoint, g: Grid,
                     draws: nat -> bv32, pos: nat, acc: seq<SpawnInfo>): Built
  {
    var room := if |candidates| == 0 then start else candidates[ScaledIndex(draws(pos), |candidates|)];
    var from := if |candidates| == 0 then pos else pos + 1;
    var f := FloorCellSearch(g, room, 4, start.centerCell, draws, from, 0);
    if f.cell.Some? && f.cell.value != keyCell && !Taken(acc, f.cell.value) then
      Built(acc + [SpawnInfo(f.cell.value, "potion")], f.next)
    else
      Built(acc, f.next)
  }

  /** A try whose search finds a cell that is neither the key cell nor
      taken adds one potion there. */
  lemma PotionTryAccepted(candidates: seq<Room>, start: Room, keyCell: GridPoint, g: Grid,
                          draws: nat -> bv32, pos: nat, acc: seq<SpawnInfo>,
                          room: Room, from: nat, cell: GridPoint, next: nat)
    requires room == if |candidates| == 0 then start else candidates[ScaledIndex(draws(pos), |candidates|)]
    requires from == if |candidates| == 0 then pos else pos + 1
    requires FloorCellSearch(g, room, 4, start.centerCell, draws, from, 0) == Found(Some(cell), next)
    requires cell != keyCell && !Taken(acc, cell)
    ensures PotionTry(candidates, start, keyCell, g, draws, pos, acc) == Built(acc + [SpawnInfo(cell, "potion")], next)
  {
  }

  /** A try whose search finds no cell, the key cell or a taken one adds
      nothing. */
  lemma PotionTryRejected(candidates: seq<Room>, start: Room, keyCell: GridPoint, g: Grid,
                          draws: nat -> bv32, pos: nat, acc: seq<SpawnInfo>,
                          room: Room, from: nat, cell: Option<GridPoint>, next: nat)
    requires room == if |candidates| == 0 then start else candidates[ScaledIndex(draws(pos), |candidates|)]
    requires from == if |candidates| == 0 then pos else pos + 1
    requires FloorCellSearch(g, room, 4, start.centerCell, draws, from, 0) == Found(cell, next)
    requires !(cell.Some? && cell.value != keyCell && !Taken(acc, cell.value))
    ensures PotionTry(candidates, start, keyCell, g, draws, pos, acc) == Built(acc, next)
  {
  }

  /** A try whose room pick is recorded in `mid` and whose search is
      recorded in the rest of `drawn` adds the found cell exactly when it is
      neither the key cell nor taken, whatever the draws agree with the
      record. */
  lemma PotionRecorded(candidates: seq<Room>, start: Room, keyCell: GridPoint, g: Grid, acc: seq<SpawnInfo>,
                       mid: seq<bv32>, drawn: seq<bv32>, n0: nat, room: Room, cell: Option<GridPoint>)
    requires |mid| <= |drawn| && drawn[..|mid|] == mid
    requires |mid| == n0 + (if |candidates| == 0 then 0 else 1)
    requires room == if |candidates| == 0 then start else candidates[ScaledIndex(mid[n0], |candidates|)]
    requires forall draws :: Records(drawn, draws, |mid|) ==>
               FloorCellSearch(g, room, 4, start.centerCell, draws, |mid|, 0) == Found(cell, |drawn|)
    ensures forall draws :: Records(drawn, draws, n0) ==>
              PotionTry(candidates, start, keyCell, g, draws, n0, acc)
              == Built(acc + (if cell.Some? && cell.value != keyCell && !Taken(acc, cell.value)
                              then [SpawnInfo(cell.value, "potion")] else []), |drawn|)
  {
    forall draws | Records(drawn, draws, n0)
      ensures PotionTry(candidates, start, keyCell, g, draws, n0, acc)
              == Built(acc + (if cell.Some? && cell.value != keyCell && !Taken(acc, cell.value)
                              then [SpawnInfo(cell.value, "potion")] else []), |drawn|)
    {
      RecordsPrefix(mid, drawn, draws, n0);
      if |candidates| > 0 {
        RecordsAt(mid, draws, n0, n0);
      }
      assert Records(drawn, draws, |mid|);
      if cell.Some? && cell.value != keyCell && !Taken(acc, cell.value) {
        PotionTryAccepted(candidates, start, keyCell, g, draws, n0, acc, room, |mid|, cell.value, |drawn|);
      } else {
        PotionTryRejected(candidates, start, keyCell, g, draws, n0, acc, room, |mid|, cell, |drawn|);
      }
    }
  }

  /** `tries` more tries of the potion loop. */
  function PotionTries(candidates: seq<Room>, start: Room, keyCell: GridPoint, g: Grid,
                       draws: nat -> bv32, tries: int, pos: nat, acc: seq<SpawnInfo>): Built
    decreases tries
  {
    if tries <= 0 then
      Built(acc, pos)
    else
      var b := PotionTry(candidates, start, keyCell, g, draws, pos, acc);
      PotionTries(candidates, start, keyCell, g, draws, tries - 1, b.next, b.spawns)
  }

  /** `generatePotionSpawns`: one draw gives the number of tries. */
  function PotionSpawns(rooms: seq<Room>, start: Room, exit: Room, keyCell: GridPoint, g: Grid,
                        draws: nat -> bv32, pos: nat): Built
  {
    PotionTries(PotionRooms(rooms, start, exit), start, keyCell, g, draws, RangeValue(draws(pos), 2, 4), pos + 1, [])
  }

  // ---------------------------------------------------------------------
  // Enemy spawns
  // ---------------------------------------------------------------------

  /** The rooms whose centre is at least 10 from the start cell. */
  function FarFromStart(rooms: seq<Room>, startCell: GridPoint): seq<Room>
  {
    Filter(rooms, (r: Room) => Manhattan(r.centerCell, startCell) >= 10)
  }

  /** `availableRooms`: the far rooms, or all rooms when none is far,
      farthest first and in list order among equal distances. */
  function EnemyRooms(rooms: seq<Room>, startCell: GridPoint): seq<Room>
  {
    var far := FarFromStart(rooms, startCell);
    SortBy(if |far| > 0 then far else rooms, FarFirst(startCell))
  }

  /** `Math.max(1, Math.round(count * 0.3))`, rounding half up. */
  function RangedCount(count: int): (r: int)
    ensures r >= 1
    ensures r > 1 ==> 20 * r - 10 <= 6 * count < 20 * r + 10
    ensures r == 1 ==> 6 * count < 30
  {
    var rounded := (3 * count + 5) / 10;
    if rounded > 1 then rounded else 1
  }

  /** The first `rangedCount` room slots get ranged enemies. */
  function EnemyKindAt(i: int, rangedCount: int): string
  {
    if i < rangedCount then "ranged" else "melee"
  }

  /** Slot `i` of the room loop: the search of `available[i]` for a cell
      at least 8 from the start cell, read as one step of `EnemySlots`. */
  method DrawEnemy(available: seq<Room>, startCell: GridPoint, count: int, g: Grid, rng: Rng,
                   i: nat, ghost acc: seq<SpawnInfo>)
    returns (cell: Option<GridPoint>)
    requires WellFormed(g) && i < |available| && i < count && RoomInGrid(available[i]) && rng.Valid()
    modifies rng
    ensures rng.Valid() && rng.seed == old(rng.seed)
    ensures |rng.drawn| >= |old(rng.drawn)| && rng.drawn[..|old(rng.drawn)|] == old(rng.drawn)
    ensures cell.Some? ==> InRoom(available[i], cell.value) && IsFloor(g, cell.value)
    ensures forall draws :: Records(rng.drawn, draws, |old(rng.drawn)|) ==>
              EnemySlots(available, startCell, count, g, draws, i, |old(rng.drawn)|, acc)
              == EnemySlots(available, startCell, count, g, draws, i + 1, |rng.drawn|,
                            if cell.Some? then acc + [SpawnInfo(cell.value, EnemyKindAt(i, RangedCount(count)))] else acc)
  {
    cell := SearchFloorCell(available[i], 8, startCell, g, rng);
  }

  /** Slot `i` of the room loop, with the facts the loop keeps. */
  method TryEnemy(available: seq<Room>, startCell: GridPoint, count: int, g: Grid, rng: Rng, i: nat,
                  spawns0: seq<SpawnInfo>, ghost picks0: seq<int>)
    returns (spawns: seq<SpawnInfo>, ghost picks: seq<int>)
    requires WellFormed(g) && i < |available| && i < count && RoomInGrid(available[i]) && rng.Valid()
    requires PlacedIn(g, available, spawns0, picks0) && Increasing(picks0)
    requires forall k :: 0 <= k < |picks0| ==> picks0[k] < i
    requires forall k :: 0 <= k < |spawns0| ==> spawns0[k].kind == EnemyKindAt(picks0[k], RangedCount(count))
    modifies rng
    ensures rng.Valid() && rng.seed == old(rng.seed)
    ensures |rng.drawn| >= |old(rng.drawn)| && rng.drawn[..|old(rng.drawn)|] == old(rng.drawn)
    ensures PlacedIn(g, available, spawns, picks) && Increasing(picks)
    ensures forall k :: 0 <= k < |picks| ==> picks[k] < i + 1
    ensures forall k :: 0 <= k < |spawns| ==> spawns[k].kind == EnemyKindAt(picks[k], RangedCount(count))
    ensures forall draws :: Records(rng.drawn, draws, |old(rng.drawn)|) ==>
              EnemySlots(available, startCell, count, g, draws, i, |old(rng.drawn)|, spawns0)
              == EnemySlots(available, startCell, count, g, draws, i + 1, |rng.drawn|, spawns)
  {
    spawns, picks := spawns0, picks0;
    var cell := DrawEnemy(available, startCell, count, g, rng, i, spawns0);
    if cell.Some? {
      var s := SpawnInfo(cell.value, EnemyKindAt(i, RangedCount(count)));
      PlacedSnoc(g, available, spawns, picks, s, i);
      IncreasingSnoc(picks, i);
      spawns, picks := spawns + [s], picks + [i];
    }
  }

  /** The main loop of `generateEnemySpawns`: slot `i` below both `count`
      and the number of rooms tries once for a cell of `available[i]` at
      least 8 from the start cell; the loop never wraps round the list, so
      each room is picked at most once. */
  method SpawnInRooms(available: seq<Room>, startCell: GridPoint, count: int, g: Grid, rng: Rng)
    returns (spawns: seq<SpawnInfo>, ghost picks: seq<int>)
    requires WellFormed(g) && AllInGrid(available) && rng.Valid()
    modifies rng
    ensures rng.Valid() && rng.seed == old(rng.seed)
    ensures |rng.drawn| >= |old(rng.drawn)| && rng.drawn[..|old(rng.drawn)|] == old(rng.drawn)
    ensures PlacedIn(g, available, spawns, picks) && Increasing(picks)
    ensures forall k :: 0 <= k < |picks| ==> picks[k] < count
    ensures forall k :: 0 <= k < |spawns| ==> spawns[k].kind == EnemyKindAt(picks[k], RangedCount(count))
    ensures |spawns| <= |available| && |spawns| <= (if count < 0 then 0 else count)
    ensures forall draws :: Records(rng.drawn, draws, |old(rng.drawn)|) ==>
              EnemySlots(available, startCell, count, g, draws, 0, |old(rng.drawn)|, []) == Built(spawns, |rng.drawn|)
  {
    ghost var n0 := |rng.drawn|;
    spawns, picks := [], [];
    // `i < count && i < availableRooms.length` holds exactly below `slots`
    var slots := if count < 0 then 0 else if count < |available| then count else |available|;
    for i := 0 to slots
      invariant rng.Valid() && rng.seed == old(rng.seed)
      invariant |rng.drawn| >= n0 && rng.drawn[..n0] == old(rng.drawn)
      invariant PlacedIn(g, available, spawns, picks) && Increasing(picks)
      invariant forall k :: 0 <= k < |picks| ==> picks[k] < i && picks[k] < count
      invariant forall k :: 0 <= k < |spawns| ==> spawns[k].kind == EnemyKindAt(picks[k], RangedCount(count))
      invariant forall draws :: Records(rng.drawn, draws, n0) ==>
                  EnemySlots(available, startCell, count, g, draws, 0, n0, [])
                  == EnemySlots(available, startCell, count, g, draws, i, |rng.drawn|, spawns)
    {
      // `availableRooms[i % availableRooms.length]` is `available[i]`, as `i` stays below the length
      ghost var before := rng.drawn;
      spawns, picks := TryEnemy(available, startCell, count, g, rng, i, spawns, picks);
      assert rng.drawn[..n0] == before[..n0];
      forall draws | Records(rng.drawn, draws, n0)
        ensures EnemySlots(available, startCell, count, g, draws, 0, n0, [])
                == EnemySlots(available, startCell, count, g, draws, i + 1, |rng.drawn|, spawns)
      {
        RecordsPrefix(before, rng.drawn, draws, n0);
        assert Records(rng.drawn, draws, |before|);
      }
    }
    IncreasingBound(picks, |available|);
    IncreasingBound(picks, if count < 0 then 0 else count);
  }



  function IsTrap(r: Room): bool
  {
    r.tag == Trap
  }

  /** The trap rooms, in list order. */
  function TrapRooms(rooms: seq<Room>): seq<Room>
  {
    Filter(rooms, IsTrap)
  }

  /** Trap room `i`: the search for a cell at least 4 from the start cell,
      read as one step of `TrapSlots`. */
  method DrawTrap(traps: seq<Room>, startCell: GridPoint, g: Grid, rng: Rng, i: nat, ghost acc: seq<SpawnInfo>)
    returns (cell: Option<GridPoint>)
    requires WellFormed(g) && i < |traps| && RoomInGrid(traps[i]) && rng.Valid()
    modifies rng
    ensures rng.Valid() && rng.seed == old(rng.seed)
    ensures |rng.drawn| >= |old(rng.drawn)| && rng.drawn[..|old(rng.drawn)|] == old(rng.drawn)
    ensures cell.Some? ==> InRoom(traps[i], cell.value) && IsFloor(g, cell.value)
    ensures forall draws :: Records(rng.drawn, draws, |old(rng.drawn)|) ==>
              TrapSlots(traps, startCell, g, draws, i, |old(rng.drawn)|, acc)
              == TrapSlots(traps, startCell, g, draws, i + 1, |rng.drawn|,
                           if cell.Some? then acc + [SpawnInfo(cell.value, "melee")] else acc)
  {
    cell := SearchFloorCell(traps[i], 4, startCell, g, rng);
  }

  /** Trap room `i` of the trap loop, with the facts the loop keeps. */
  method TryTrap(traps: seq<Room>, startCell: GridPoint, g: Grid, rng: Rng, i: nat,
                 spawns0: seq<SpawnInfo>, ghost picks0: seq<int>)
    returns (spawns: seq<SpawnInfo>, ghost picks: seq<int>)
    requires WellFormed(g) && i < |traps| && RoomInGrid(traps[i]) && rng.Valid()
    requires PlacedIn(g, traps, spawns0, picks0) && Increasing(picks0)
    requires forall k :: 0 <= k < |picks0| ==> picks0[k] < i
    requires forall k :: 0 <= k < |spawns0| ==> spawns0[k].kind == "melee"
    modifies rng
    ensures rng.Valid() && rng.seed == old(rng.seed)
    ensures |rng.drawn| >= |old(rng.drawn)| && rng.drawn[..|old(rng.drawn)|] == old(rng.drawn)
    ensures PlacedIn(g, traps, spawns, picks) && Increasing(picks)
    ensures forall k :: 0 <= k < |picks| ==> picks[k] < i + 1
    ensures forall k :: 0 <= k < |spawns| ==> spawns[k].kind == "melee"
    ensures forall draws :: Records(rng.drawn, draws, |old(rng.drawn)|) ==>
              TrapSlots(traps, startCell, g, draws, i, |old(rng.drawn)|, spawns0)
              == TrapSlots(traps, startCell, g, draws, i + 1, |rng.drawn|, spawns)
  {
    spawns, picks := spawns0, picks0;
    var cell := DrawTrap(traps, startCell, g, rng, i, spawns0);
    if cell.Some? {
      var s := SpawnInfo(cell.value, "melee");
      PlacedSnoc(g, traps, spawns, picks, s, i);
      IncreasingSnoc(picks, i);
      spawns, picks := spawns + [s], picks + [i];
    }
  }

  /** The trap loop of `generateEnemySpawns`: each trap room tries once for
      a melee spawn at least 4 from the start cell. */
  method SpawnInTraps(traps: seq<Room>, startCell: GridPoint, g: Grid, rng: Rng)
    returns (spawns: seq<SpawnInfo>, ghost picks: seq<int>)
    requires WellFormed(g) && AllInGrid(traps) && rng.Valid()
    modifies rng
    ensures rng.Valid() && rng.seed == old(rng.seed)
    ensures |rng.drawn| >= |old(rng.drawn)| && rng.drawn[..|old(rng.drawn)|] == old(rng.drawn)
    ensures PlacedIn(g, traps, spawns, picks) && Increasing(picks)
    ensures forall k :: 0 <= k < |spawns| ==> spawns[k].kind == "melee"
    ensures |spawns| <= |traps|
    ensures forall draws :: Records(rng.drawn, draws, |old(rng.drawn)|) ==>
              TrapSlots(traps, startCell, g, draws, 0, |old(rng.drawn)|, []) == Built(spawns, |rng.drawn|)
  {
    ghost var n0 := |rng.drawn|;
    spawns, picks := [], [];
    for i := 0 to |traps|
      invariant rng.Valid() && rng.seed == old(rng.seed)
      invariant |rng.drawn| >= n0 && rng.drawn[..n0] == old(rng.drawn)
      invariant PlacedIn(g, traps, spawns, picks) && Increasing(picks)
      invariant forall k :: 0 <= k < |picks| ==> picks[k] < i
      invariant forall k :: 0 <= k < |spawns| ==> spawns[k].kind == "melee"
      invariant forall draws :: Records(rng.drawn, draws, n0) ==>
                  TrapSlots(traps, startCell, g, draws, 0, n0, []) == TrapSlots(traps, startCell, g, draws, i, |rng.drawn|, spawns)
    {
      ghost var before := rng.drawn;
      ghost var spawns0 := spawns;
      spawns, picks := TryTrap(traps, startCell, g, rng, i, spawns, picks);
      assert rng.drawn[..n0] == before[..n0];
      forall draws | Records(rng.drawn, draws, n0)
        ensures TrapSlots(traps, startCell, g, draws, 0, n0, []) == TrapSlots(traps, startCell, g, draws, i + 1, |rng.drawn|, spawns)
      {
        RecordsPrefix(before, rng.drawn, draws, n0);
        assert Records(rng.drawn, draws, |before|);
      }
    }
    IncreasingBound(picks, |traps|);
  }



  /** `generateEnemySpawns`. When no room is far from the start, the sort
      of the fallback list reorders the caller's room list itself, so the
      list the trap loop (and every later step) sees is `roomsAfter`. */
  method GenerateEnemySpawns(rooms: seq<Room>, startCell: GridPoint, count: int, g: Grid, rng: Rng)
    returns (spawns: seq<SpawnInfo>, roomsAfter: seq<Room>,
             ghost fromRooms: seq<SpawnInfo>, ghost roomPicks: seq<int>, ghost trapPicks: seq<int>)
    requires WellFormed(g) && AllInGrid(rooms) && rng.Valid()
    modifies rng
    ensures rng.Valid() && rng.seed == old(rng.seed)
    ensures roomsAfter == if |FarFromStart(rooms, startCell)| > 0 then rooms else EnemyRooms(rooms, startCell)
    ensures multiset(roomsAfter) == multiset(rooms)
    ensures |fromRooms| <= |spawns| && fromRooms == spawns[..|fromRooms|]
    ensures PlacedIn(g, EnemyRooms(rooms, startCell), fromRooms, roomPicks) && Increasing(roomPicks)
    ensures forall k :: 0 <= k < |roomPicks| ==> roomPicks[k] < count
    ensures forall k :: 0 <= k < |fromRooms| ==> fromRooms[k].kind == EnemyKindAt(roomPicks[k], RangedCount(count))
    ensures |fromRooms| <= (if count < 0 then 0 else count)
    ensures PlacedIn(g, TrapRooms(roomsAfter), spawns[|fromRooms|..], trapPicks) && Increasing(trapPicks)
    ensures forall k :: |fromRooms| <= k < |spawns| ==> spawns[k].kind == "melee"
    ensures |rng.drawn| >= |old(rng.drawn)| && rng.drawn[..|old(rng.drawn)|] == old(rng.drawn)
    ensures forall draws :: Records(rng.drawn, draws, |old(rng.drawn)|) ==>
              EnemySpawns(rooms, startCell, count, g, draws, |old(rng.drawn)|) == Built(spawns, |rng.drawn|)
  {
    ghost var n0 := |rng.drawn|;
    var far := FarFromStart(rooms, startCell);
    var available := EnemyRooms(rooms, startCell);
    FilterMembers(rooms, (r: Room) => Manhattan(r.centerCell, startCell) >= 10);
    SortByMembers(if |far| > 0 then far else rooms, FarFirst(startCell));
    roomsAfter := if |far| > 0 then rooms else available;
    SortByPermutation(rooms, FarFirst(startCell));
    var roomSpawns;
    roomSpawns, roomPicks := SpawnInRooms(available, startCell, count, g, rng);
    fromRooms := roomSpawns;
    var traps := TrapRooms(roomsAfter);
    FilterMembers(roomsAfter, IsTrap);
    if |far| == 0 {
      SortByMembers(rooms, FarFirst(startCell));
    }
    ghost var mid := rng.drawn;
    var fromTraps;
    fromTraps, trapPicks := SpawnInTraps(traps, startCell, g, rng);
    assert rng.drawn[..n0] == mid[..n0];
    spawns := roomSpawns + fromTraps;
    assert spawns[|fromRooms|..] == fromTraps;
    forall draws | Records(rng.drawn, draws, n0)
      ensures EnemySpawns(rooms, startCell, count, g, draws, n0) == Built(spawns, |rng.drawn|)
    {
      RecordsPrefix(mid, rng.drawn, draws, n0);
      assert Records(rng.drawn, draws, |mid|);
    }
  }

  // ---------------------------------------------------------------------
  // Prop spawns
  // ---------------------------------------------------------------------

  /** `['crate', 'barrel', 'pillar', 'rock']`. */
  const PropKinds: seq<string> := ["crate", "barrel", "pillar", "rock"]

  /** How many props a room may draw: 2..4 in an armory, else 1..3. */
  function PropMin(r: Room): int
  {
    if r.tag == Armory then 2 else 1
  }

  function PropMax(r: Room): int
  {
    if r.tag == Armory then 4 else 3
  }

  /** The number of entries equal to `i`. */
  function CountOf(picks: seq<int>, i: int): nat
  {
    if |picks| == 0 then 0
    else CountOf(picks[..|picks| - 1], i) + (if picks[|picks| - 1] == i then 1 else 0)
  }

  lemma CountOfSnoc(picks: seq<int>, j: int, i: int)
    ensures CountOf(picks + [j], i) == CountOf(picks, i) + (if j == i then 1 else 0)
  {
    assert (picks + [j])[..|picks|] == picks;
  }

  /** A value no entry reaches is counted zero times. */
  lemma {:induction false} CountOfBelow(picks: seq<int>, i: int)
    requires forall k :: 0 <= k < |picks| ==> picks[k] < i
    ensures CountOf(picks, i) == 0
    decreases |picks|
  {
    if |picks| > 0 {
      CountOfBelow(picks[..|picks| - 1], i);
    }
  }

  /** A skipped room and every room other than start and exit may draw
      props; the start and exit rooms never do. */
  predicate PropRoom(rooms: seq<Room>, start: Room, exit: Room, i: int)
    requires 0 <= i < |rooms|
  {
    rooms[i].id != start.id && rooms[i].id != exit.id
  }

  /** The facts the prop loops keep about the spawns so far, all drawn for
      rooms before `i` or for room `i` itself. */
  predicate PropsSoFar(g: Grid, rooms: seq<Room>, start: Room, exit: Room,
                       spawns: seq<SpawnInfo>, picks: seq<int>, occupied: set<GridPoint>, i: int)
  {
    PlacedIn(g, rooms, spawns, picks) && NonDecreasing(picks) &&
    DistinctCells(spawns) && occupied == CellsOf(spawns) &&
    (forall k :: 0 <= k < |picks| ==> picks[k] <= i && PropRoom(rooms, start, exit, picks[k])) &&
    (forall k :: 0 <= k < |spawns| ==> spawns[k].kind in PropKinds)
  }

  /** Adding a spawn on a fresh cell keeps the prop facts. */
  lemma PropsSnoc(g: Grid, rooms: seq<Room>, start: Room, exit: Room,
                  spawns: seq<SpawnInfo>, picks: seq<int>, occupied: set<GridPoint>, i: int, s: SpawnInfo)
    requires PropsSoFar(g, rooms, start, exit, spawns, picks, occupied, i)
    requires 0 <= i < |rooms| && PropRoom(rooms, start, exit, i)
    requires InRoom(rooms[i], s.cell) && IsFloor(g, s.cell) && s.cell !in occupied && s.kind in PropKinds
    ensures PropsSoFar(g, rooms, start, exit, spawns + [s], picks + [i], occupied + {s.cell}, i)
  {
    PlacedSnoc(g, rooms, spawns, picks, s, i);
    var sp := spawns + [s];
    assert forall k :: 0 <= k < |spawns| ==> sp[k] == spawns[k];
    assert CellsOf(sp) == CellsOf(spawns) + {s.cell} by {
      forall c | c in CellsOf(sp)
        ensures c in CellsOf(spawns) + {s.cell}
      {
        var k :| 0 <= k < |sp| && sp[k].cell == c;
        if k < |spawns| {
          assert spawns[k].cell == c;
        }
      }
      forall c | c in CellsOf(spawns)
        ensures c in CellsOf(sp)
      {
        var k :| 0 <= k < |spawns| && spawns[k].cell == c;
        assert sp[k].cell == c;
      }
      assert sp[|spawns|].cell == s.cell;
    }
    forall k, l | 0 <= k < l < |sp|
      ensures sp[k].cell != sp[l].cell
    {
      if l == |spawns| {
        assert sp[k].cell in CellsOf(spawns);
      }
    }
  }

  /** The draws of one try of the prop loop: a floor cell of `room` at
      least 4 from the start centre, and, when one is found that is not
      taken, one more draw for the kind of the prop placed there. */
  method DrawProp(room: Room, startCell: GridPoint, g: Grid, rng: Rng,
                  ghost acc: seq<SpawnInfo>, occupied: set<GridPoint>)
    returns (prop: Option<SpawnInfo>)
    requires WellFormed(g) && RoomInGrid(room) && rng.Valid() && occupied == CellsOf(acc)
    modifies rng
    ensures rng.Valid() && rng.seed == old(rng.seed)
    ensures |rng.drawn| >= |old(rng.drawn)| && rng.drawn[..|old(rng.drawn)|] == old(rng.drawn)
    ensures prop.Some? ==> InRoom(room, prop.value.cell) && IsFloor(g, prop.value.cell) &&
                           prop.value.cell !in occupied && prop.value.kind in PropKinds
    ensures forall draws :: Records(rng.drawn, draws, |old(rng.drawn)|) ==>
              PropTry(room, startCell, g, draws, |old(rng.drawn)|, acc)
              == Built(acc + (if prop.Some? then [prop.value] else []), |rng.drawn|)
  {
    ghost var n0 := |rng.drawn|;
    var cell := SearchFloorCell(room, 4, startCell, g, rng);
    ghost var found := rng.drawn;
    if cell.Some? && cell.value !in occupied {
      var k := DrawIndex(rng, |PropKinds|);
      assert rng.drawn[..n0] == found[..n0];
      prop := Some(SpawnInfo(cell.value, PropKinds[k]));
      TakenCells(acc, cell.value);
      PropAcceptedRecorded(room, startCell, g, acc, found, rng.drawn, n0, cell, k);
    } else {
      if cell.Some? {
        TakenCells(acc, cell.value);
      }
      prop := None;
      PropRejectedRecorded(room, startCell, g, acc, rng.drawn, n0, cell);
    }
  }


  /** One try of the prop loop in room `i`, with the facts the loop keeps. */
  method TryProp(rooms: seq<Room>, i: int, start: Room, exit: Room, g: Grid, rng: Rng,
                 spawns0: seq<SpawnInfo>, ghost picks0: seq<int>, occupied0: set<GridPoint>)
    returns (spawns: seq<SpawnInfo>, ghost picks: seq<int>, occupied: set<GridPoint>)
    requires WellFormed(g) && 0 <= i < |rooms| && RoomInGrid(rooms[i]) && rng.Valid()
    requires PropRoom(rooms, start, exit, i)
    requires PropsSoFar(g, rooms, start, exit, spawns0, picks0, occupied0, i)
    modifies rng
    ensures rng.Valid() && rng.seed == old(rng.seed)
    ensures PropsSoFar(g, rooms, start, exit, spawns, picks, occupied, i)
    ensures CountOf(picks, i) <= CountOf(picks0, i) + 1
    ensures forall j :: j != i ==> CountOf(picks, j) == CountOf(picks0, j)
    ensures |rng.drawn| >= |old(rng.drawn)| && rng.drawn[..|old(rng.drawn)|] == old(rng.drawn)
    ensures forall draws :: Records(rng.drawn, draws, |old(rng.drawn)|) ==>
              PropTry(rooms[i], start.centerCell, g, draws, |old(rng.drawn)|, spawns0) == Built(spawns, |rng.drawn|)
  {
    spawns, picks, occupied := spawns0, picks0, occupied0;
    var prop := DrawProp(rooms[i], start.centerCell, g, rng, spawns0, occupied0);
    if prop.Some? {
      var s := prop.value;
      PropsSnoc(g, rooms, start, exit, spawns, picks, occupied, i, s);
      forall j
        ensures CountOf(picks + [i], j) == CountOf(picks, j) + (if i == j then 1 else 0)
      {
        CountOfSnoc(picks, i, j);
      }
      spawns, picks, occupied := spawns + [s], picks + [i], occupied + {s.cell};
    }
  }

  /** The loop of one room's props: `tries` tries in room `i`. */
  method TryProps(rooms: seq<Room>, i: int, start: Room, exit: Room, g: Grid, rng: Rng, tries: nat,
                  spawns0: seq<SpawnInfo>, ghost picks0: seq<int>, occupied0: set<GridPoint>)
    returns (spawns: seq<SpawnInfo>, ghost picks: seq<int>, occupied: set<GridPoint>)
    requires WellFormed(g) && 0 <= i < |rooms| && RoomInGrid(rooms[i]) && rng.Valid()
    requires PropRoom(rooms, start, exit, i)
    requires PropsSoFar(g, rooms, start, exit, spawns0, picks0, occupied0, i)
    modifies rng
    ensures rng.Valid() && rng.seed == old(rng.seed)
    ensures |rng.drawn| >= |old(rng.drawn)| && rng.drawn[..|old(rng.drawn)|] == old(rng.drawn)
    ensures PropsSoFar(g, rooms, start, exit, spawns, picks, occupied, i)
    ensures CountOf(picks, i) <= CountOf(picks0, i) + tries
    ensures forall j :: j != i ==> CountOf(picks, j) == CountOf(picks0, j)
    ensures forall draws :: Records(rng.drawn, draws, |old(rng.drawn)|) ==>
              PropTries(rooms[i], start.centerCell, g, draws, tries, |old(rng.drawn)|, spawns0) == Built(spawns, |rng.drawn|)
  {
    var room := rooms[i];
    ghost var n0 := |rng.drawn|;
    spawns, picks, occupied := spawns0, picks0, occupied0;
    for n := 0 to tries
      invariant rng.Valid() && rng.seed == old(rng.seed)
      invariant |rng.drawn| >= n0 && rng.drawn[..n0] == old(rng.drawn)
      invariant PropsSoFar(g, rooms, start, exit, spawns, picks, occupied, i)
      invariant CountOf(picks, i) <= CountOf(picks0, i) + n
      invariant forall j :: j != i ==> CountOf(picks, j) == CountOf(picks0, j)
      invariant forall draws :: Records(rng.drawn, draws, n0) ==>
                  PropTries(room, start.centerCell, g, draws, tries, n0, spawns0)
                  == PropTries(room, start.centerCell, g, draws, tries - n, |rng.drawn|, spawns)
    {
      ghost var before := rng.drawn;
      spawns, picks, occupied := TryProp(rooms, i, start, exit, g, rng, spawns, picks, occupied);
      assert rng.drawn[..n0] == before[..n0];
      forall draws | Records(rng.drawn, draws, n0)
        ensures PropTries(room, start.centerCell, g, draws, tries, n0, spawns0)
                == PropTries(room, start.centerCell, g, draws, tries - (n + 1), |rng.drawn|, spawns)
      {
        RecordsPrefix(before, rng.drawn, draws, n0);
        assert Records(rng.drawn, draws, |before|);
      }
    }
  }

  /** One room's props: `RandRange(baseMin, baseMax)` tries. */
  method SpawnPropsInRoom(rooms: seq<Room>, i: int, start: Room, exit: Room, g: Grid, rng: Rng,
                          spawns0: seq<SpawnInfo>, ghost picks0: seq<int>, occupied0: set<GridPoint>)
    returns (spawns: seq<SpawnInfo>, ghost picks: seq<int>, occupied: set<GridPoint>)
    requires WellFormed(g) && 0 <= i < |rooms| && RoomInGrid(rooms[i]) && rng.Valid()
    requires PropRoom(rooms, start, exit, i)
    requires PropsSoFar(g, rooms, start, exit, spawns0, picks0, occupied0, i)
    modifies rng
    ensures rng.Valid() && rng.seed == old(rng.seed)
    ensures |rng.drawn| >= |old(rng.drawn)| && rng.drawn[..|old(rng.drawn)|] == old(rng.drawn)
    ensures PropsSoFar(g, rooms, start, exit, spawns, picks, occupied, i)
    ensures CountOf(picks, i) <= CountOf(picks0, i) + PropMax(rooms[i])
    ensures forall j :: j != i ==> CountOf(picks, j) == CountOf(picks0, j)
    ensures forall draws :: Records(rng.drawn, draws, |old(rng.drawn)|) ==>
              RoomProps(rooms[i], start.centerCell, g, draws, |old(rng.drawn)|, spawns0) == Built(spawns, |rng.drawn|)
  {
    var room := rooms[i];
    ghost var n0 := |rng.drawn|;
    var propCount := RandRange(rng, PropMin(room), PropMax(room));
    ghost var counted := rng.drawn;
    spawns, picks, occupied := TryProps(rooms, i, start, exit, g, rng, propCount, spawns0, picks0, occupied0);
    assert rng.drawn[..n0] == counted[..n0];
    forall draws | Records(rng.drawn, draws, n0)
      ensures RoomProps(room, start.centerCell, g, draws, n0, spawns0) == Built(spawns, |rng.drawn|)
    {
      RecordsPrefix(counted, rng.drawn, draws, n0);
      RecordsAt(counted, draws, n0, n0);
      assert Records(rng.drawn, draws, |counted|);
    }
  }



  /** Room `i` of `generatePropSpawns`: its props when it is neither the
      start nor the exit room, nothing otherwise. */
  method VisitPropRoom(rooms: seq<Room>, i: int, start: Room, exit: Room, g: Grid, rng: Rng,
                       spawns0: seq<SpawnInfo>, ghost picks0: seq<int>, occupied0: set<GridPoint>)
    returns (spawns: seq<SpawnInfo>, ghost picks: seq<int>, occupied: set<GridPoint>)
    requires WellFormed(g) && AllInGrid(rooms) && 0 <= i < |rooms| && rng.Valid()
    requires PropsSoFar(g, rooms, start, exit, spawns0, picks0, occupied0, i)
    requires forall k :: 0 <= k < |picks0| ==> picks0[k] < i
    requires forall j :: 0 <= j < i ==> CountOf(picks0, j) <= PropMax(rooms[j])
    modifies rng
    ensures rng.Valid() && rng.seed == old(rng.seed)
    ensures |rng.drawn| >= |old(rng.drawn)| && rng.drawn[..|old(rng.drawn)|] == old(rng.drawn)
    ensures PropsSoFar(g, rooms, start, exit, spawns, picks, occupied, i + 1)
    ensures forall k :: 0 <= k < |picks| ==> picks[k] < i + 1
    ensures forall j :: 0 <= j < i + 1 ==> CountOf(picks, j) <= PropMax(rooms[j])
    ensures forall draws :: Records(rng.drawn, draws, |old(rng.drawn)|) ==>
              PropRooms(rooms, start, exit, g, draws, i, |old(rng.drawn)|, spawns0)
              == PropRooms(rooms, start, exit, g, draws, i + 1, |rng.drawn|, spawns)
  {
    CountOfBelow(picks0, i);
    spawns, picks, occupied := spawns0, picks0, occupied0;
    if PropRoom(rooms, start, exit, i) {
      assert rooms[i] in rooms;
      spawns, picks, occupied := SpawnPropsInRoom(rooms, i, start, exit, g, rng, spawns, picks, occupied);
    }
    assert PropsSoFar(g, rooms, start, exit, spawns, picks, occupied, i + 1);
  }

  /** `generatePropSpawns`: every room but start and exit draws its props
      in list order; props never share a cell, lie on floor cells of their
      rooms, and a room holds at most 4 props if it is an armory and at
      most 3 otherwise. */
  method GeneratePropSpawns(rooms: seq<Room>, start: Room, exit: Room, g: Grid, rng: Rng)
    returns (spawns: seq<SpawnInfo>, ghost picks: seq<int>)
    requires WellFormed(g) && AllInGrid(rooms) && rng.Valid()
    modifies rng
    ensures rng.Valid() && rng.seed == old(rng.seed)
    ensures PlacedIn(g, rooms, spawns, picks) && NonDecreasing(picks) && DistinctCells(spawns)
    ensures forall k :: 0 <= k < |picks| ==> rooms[picks[k]].id != start.id && rooms[picks[k]].id != exit.id
    ensures forall k :: 0 <= k < |spawns| ==> spawns[k].kind in PropKinds
    ensures forall i :: 0 <= i < |rooms| ==> CountOf(picks, i) <= PropMax(rooms[i])
    ensures |rng.drawn| >= |old(rng.drawn)| && rng.drawn[..|old(rng.drawn)|] == old(rng.drawn)
    ensures forall draws :: Records(rng.drawn, draws, |old(rng.drawn)|) ==>
              PropSpawns(rooms, start, exit, g, draws, |old(rng.drawn)|) == Built(spawns, |rng.drawn|)
  {
    ghost var n0 := |rng.drawn|;
    spawns, picks := [], [];
    var occupied: set<GridPoint> := {};
    for i := 0 to |rooms|
      invariant rng.Valid() && rng.seed == old(rng.seed)
      invariant PropsSoFar(g, rooms, start, exit, spawns, picks, occupied, i)
      invariant forall k :: 0 <= k < |picks| ==> picks[k] < i
      invariant forall j :: 0 <= j < i ==> CountOf(picks, j) <= PropMax(rooms[j])
      invariant |rng.drawn| >= n0 && rng.drawn[..n0] == old(rng.drawn)
      invariant forall draws :: Records(rng.drawn, draws, n0) ==>
                  PropSpawns(rooms, start, exit, g, draws, n0) == PropRooms(rooms, start, exit, g, draws, i, |rng.drawn|, spawns)
    {
      ghost var before := rng.drawn;
      spawns, picks, occupied := VisitPropRoom(rooms, i, start, exit, g, rng, spawns, picks, occupied);
      assert rng.drawn[..n0] == before[..n0];
      forall draws | Records(rng.drawn, draws, n0)
        ensures PropSpawns(rooms, start, exit, g, draws, n0) == PropRooms(rooms, start, exit, g, draws, i + 1, |rng.drawn|, spawns)
      {
        RecordsPrefix(before, rng.drawn, draws, n0);
        assert Records(rng.drawn, draws, |before|);
      }
    }
  }

  // ---------------------------------------------------------------------
  // Potion spawns
  // ---------------------------------------------------------------------

  /** The rooms potions may be drawn for. */
  function PotionRooms(rooms: seq<Room>, start: Room, exit: Room): seq<Room>
  {
    Excluding(rooms, {start.id, exit.id})
  }

  /** `room` is a potion room, or the start room when there is none. */
  predicate PotionSource(rooms: seq<Room>, start: Room, exit: Room, room: Room)
  {
    var candidates := PotionRooms(rooms, start, exit);
    if |candidates| == 0 then room == start else room in candidates
  }

  /** The facts the potion loop keeps about the spawns so far. */
  predicate PotionsSoFar(g: Grid, rooms: seq<Room>, start: Room, exit: Room, keyCell: GridPoint,
                         spawns: seq<SpawnInfo>, sources: seq<Room>, occupied: set<GridPoint>)
  {
    |sources| == |spawns| &&
    DistinctCells(spawns) && occupied == CellsOf(spawns) + {keyCell} && keyCell !in CellsOf(spawns) &&
    forall k :: 0 <= k < |spawns| ==>
      PotionSource(rooms, start, exit, sources[k]) && InRoom(sources[k], spawns[k].cell) &&
      IsFloor(g, spawns[k].cell) && spawns[k].kind == "potion"
  }

  lemma PotionsSnoc(g: Grid, rooms: seq<Room>, start: Room, exit: Room, keyCell: GridPoint,
                    spawns: seq<SpawnInfo>, sources: seq<Room>, occupied: set<GridPoint>, room: Room, c: GridPoint)
    requires PotionsSoFar(g, rooms, start, exit, keyCell, spawns, sources, occupied)
    requires PotionSource(rooms, start, exit, room) && InRoom(room, c) && IsFloor(g, c) && c !in occupied
    ensures PotionsSoFar(g, rooms, start, exit, keyCell, spawns + [SpawnInfo(c, "potion")], sources + [room],
                         occupied + {c})
  {
    var sp := spawns + [SpawnInfo(c, "potion")];
    var so := sources + [room];
    assert forall k :: 0 <= k < |spawns| ==> sp[k] == spawns[k] && so[k] == sources[k];
    assert CellsOf(sp) == CellsOf(spawns) + {c} by {
      forall x | x in CellsOf(sp)
        ensures x in CellsOf(spawns) + {c}
      {
        var k :| 0 <= k < |sp| && sp[k].cell == x;
        if k < |spawns| {
          assert spawns[k].cell == x;
        }
      }
      forall x | x in CellsOf(spawns)
        ensures x in CellsOf(sp)
      {
        var k :| 0 <= k < |spawns| && spawns[k].cell == x;
        assert sp[k].cell == x;
      }
      assert sp[|spawns|].cell == c;
    }
    forall k, l | 0 <= k < l < |sp|
      ensures sp[k].cell != sp[l].cell
    {
      if l == |spawns| {
        assert sp[k].cell in CellsOf(spawns);
      }
    }
  }

  /** The draws of one try of the potion loop: one draw picks a candidate
      room (the start room when there is none), then a floor cell of it at
      least 4 from the start centre; the cell is returned when it is not
      yet taken. */
  method DrawPotion(candidates: seq<Room>, start: Room, keyCell: GridPoint, g: Grid, rng: Rng,
                    ghost acc: seq<SpawnInfo>, occupied: set<GridPoint>)
    returns (potion: Option<GridPoint>, ghost room: Room)
    requires WellFormed(g) && RoomInGrid(start) && rng.Valid()
    requires forall r :: r in candidates ==> RoomInGrid(r)
    requires occupied == CellsOf(acc) + {keyCell}
    modifies rng
    ensures rng.Valid() && rng.seed == old(rng.seed)
    ensures |rng.drawn| >= |old(rng.drawn)| && rng.drawn[..|old(rng.drawn)|] == old(rng.drawn)
    ensures if |candidates| == 0 then room == start else room in candidates
    ensures potion.Some? ==> InRoom(room, potion.value) && IsFloor(g, potion.value) && potion.value !in occupied
    ensures forall draws :: Records(rng.drawn, draws, |old(rng.drawn)|) ==>
              PotionTry(candidates, start, keyCell, g, draws, |old(rng.drawn)|, acc)
              == Built(acc + (if potion.Some? then [SpawnInfo(potion.value, "potion")] else []), |rng.drawn|)
  {
    ghost var n0 := |rng.drawn|;
    var picked := PickRandomRoom(candidates, rng);
    var r := if picked.Some? then picked.value else start;
    room := r;
    ghost var mid := rng.drawn;
    var cell := SearchFloorCell(r, 4, start.centerCell, g, rng);
    assert rng.drawn[..n0] == mid[..n0];
    if cell.Some? {
      TakenCells(acc, cell.value);
    }
    if cell.Some? && cell.value !in occupied {
      potion := Some(cell.value);
    } else {
      potion := None;
    }
    PotionRecorded(candidates, start, keyCell, g, acc, mid, rng.drawn, n0, r, cell);
  }

  /** One try of the potion loop, with the facts the loop keeps. */
  method TryPotion(rooms: seq<Room>, start: Room, exit: Room, keyCell: GridPoint, g: Grid, rng: Rng,
                   spawns0: seq<SpawnInfo>, ghost sources0: seq<Room>, occupied0: set<GridPoint>)
    returns (spawns: seq<SpawnInfo>, ghost sources: seq<Room>, occupied: set<GridPoint>)
    requires WellFormed(g) && AllInGrid(rooms) && RoomInGrid(start) && rng.Valid()
    requires PotionsSoFar(g, rooms, start, exit, keyCell, spawns0, sources0, occupied0)
    modifies rng
    ensures rng.Valid() && rng.seed == old(rng.seed)
    ensures |rng.drawn| >= |old(rng.drawn)| && rng.drawn[..|old(rng.drawn)|] == old(rng.drawn)
    ensures PotionsSoFar(g, rooms, start, exit, keyCell, spawns, sources, occupied)
    ensures |spawns| <= |spawns0| + 1
    ensures forall draws :: Records(rng.drawn, draws, |old(rng.drawn)|) ==>
              PotionTry(PotionRooms(rooms, start, exit), start, keyCell, g, draws, |old(rng.drawn)|, spawns0)
              == Built(spawns, |rng.drawn|)
  {
    var candidates := PotionRooms(rooms, start, exit);
    ExcludingMembers(rooms, {start.id, exit.id});
    spawns, sources, occupied := spawns0, sources0, occupied0;
    var potion, room := DrawPotion(candidates, start, keyCell, g, rng, spawns0, occupied0);
    if potion.Some? {
      PotionsSnoc(g, rooms, start, exit, keyCell, spawns, sources, occupied, room, potion.value);
      spawns, sources, occupied := spawns + [SpawnInfo(potion.value, "potion")], sources + [room],
                                   occupied + {potion.value};
    }
    assert spawns == spawns0 + (if potion.Some? then [SpawnInfo(potion.value, "potion")] else []);
  }

  /** The potion loop: `tries` tries, each adding at most one potion. */
  method TryPotions(rooms: seq<Room>, start: Room, exit: Room, keyCell: GridPoint, g: Grid, rng: Rng, tries: nat,
                    spawns0: seq<SpawnInfo>, ghost sources0: seq<Room>, occupied0: set<GridPoint>)
    returns (spawns: seq<SpawnInfo>, ghost sources: seq<Room>, occupied: set<GridPoint>)
    requires WellFormed(g) && AllInGrid(rooms) && RoomInGrid(start) && rng.Valid()
    requires PotionsSoFar(g, rooms, start, exit, keyCell, spawns0, sources0, occupied0)
    modifies rng
    ensures rng.Valid() && rng.seed == old(rng.seed)
    ensures |rng.drawn| >= |old(rng.drawn)| && rng.drawn[..|old(rng.drawn)|] == old(rng.drawn)
    ensures PotionsSoFar(g, rooms, start, exit, keyCell, spawns, sources, occupied)
    ensures |spawns| <= |spawns0| + tries
    ensures forall draws :: Records(rng.drawn, draws, |old(rng.drawn)|) ==>
              PotionTries(PotionRooms(rooms, start, exit), start, keyCell, g, draws, tries, |old(rng.drawn)|, spawns0)
              == Built(spawns, |rng.drawn|)
  {
    ghost var n0 := |rng.drawn|;
    spawns, sources, occupied := spawns0, sources0, occupied0;
    for i := 0 to tries
      invariant rng.Valid() && rng.seed == old(rng.seed)
      invariant |rng.drawn| >= n0 && rng.drawn[..n0] == old(rng.drawn)
      invariant PotionsSoFar(g, rooms, start, exit, keyCell, spawns, sources, occupied)
      invariant |spawns| <= |spawns0| + i
      invariant forall draws :: Records(rng.drawn, draws, n0) ==>
                  PotionTries(PotionRooms(rooms, start, exit), start, keyCell, g, draws, tries, n0, spawns0)
                  == PotionTries(PotionRooms(rooms, start, exit), start, keyCell, g, draws, tries - i, |rng.drawn|, spawns)
    {
      ghost var before := rng.drawn;
      spawns, sources, occupied := TryPotion(rooms, start, exit, keyCell, g, rng, spawns, sources, occupied);
      assert rng.drawn[..n0] == before[..n0];
      forall draws | Records(rng.drawn, draws, n0)
        ensures PotionTries(PotionRooms(rooms, start, exit), start, keyCell, g, draws, tries, n0, spawns0)
                == PotionTries(PotionRooms(rooms, start, exit), start, keyCell, g, draws, tries - (i + 1), |rng.drawn|, spawns)
      {
        RecordsPrefix(before, rng.drawn, draws, n0);
        assert Records(rng.drawn, draws, |before|);
      }
    }
  }

  /** `generatePotionSpawns`: `RandRange(2, 4)` tries, each for a random
      room other than start and exit (the start room when there is none);
      potions never share a cell with each other or with the key, and lie
      on floor cells of their rooms. */
  method GeneratePotionSpawns(rooms: seq<Room>, start: Room, exit: Room, keyCell: GridPoint, g: Grid, rng: Rng)
    returns (spawns: seq<SpawnInfo>, ghost sources: seq<Room>)
    requires WellFormed(g) && AllInGrid(rooms) && RoomInGrid(start) && rng.Valid()
    modifies rng
    ensures rng.Valid() && rng.seed == old(rng.seed) && |rng.drawn| > |old(rng.drawn)|
    ensures rng.drawn[..|old(rng.drawn)|] == old(rng.drawn)
    ensures |spawns| <= RangeValue(rng.drawn[|old(rng.drawn)|], 2, 4) <= 4
    ensures |sources| == |spawns| && DistinctCells(spawns)
    ensures forall k :: 0 <= k < |spawns| ==>
              spawns[k].cell != keyCell && PotionSource(rooms, start, exit, sources[k]) &&
              InRoom(sources[k], spawns[k].cell) && IsFloor(g, spawns[k].cell) && spawns[k].kind == "potion"
    ensures forall draws :: Records(rng.drawn, draws, |old(rng.drawn)|) ==>
              PotionSpawns(rooms, start, exit, keyCell, g, draws, |old(rng.drawn)|) == Built(spawns, |rng.drawn|)
  {
    ghost var n0 := |rng.drawn|;
    var potionCount := RandRange(rng, 2, 4);
    ghost var counted := rng.drawn;
    spawns, sources := [], [];
    var occupied := {keyCell};
    spawns, sources, occupied := TryPotions(rooms, start, exit, keyCell, g, rng, potionCount, spawns, sources, occupied);
    assert rng.drawn[..n0] == counted[..n0];
    assert rng.drawn[n0] == counted[n0];
    forall draws | Records(rng.drawn, draws, n0)
      ensures PotionSpawns(rooms, start, exit, keyCell, g, draws, n0) == Built(spawns, |rng.drawn|)
    {
      RecordsPrefix(counted, rng.drawn, draws, n0);
      RecordsAt(counted, draws, n0, n0);
      assert Records(rng.drawn, draws, |counted|);
    }
    forall k | 0 <= k < |spawns|
      ensures spawns[k].cell != keyCell
    {
      assert spawns[k].cell in CellsOf(spawns);
    }
  }

}
