/** The seeded dungeon generator: rooms carved into a grid full of wall,
    joined by L-shaped corridors, and the choice of the exit room. The grid
    being generated is an array written in place. */
module Dungeon {
  import opened State
  import opened Cells = Grid
  import opened SeededRandom
  import opened Sorting
  import opened Reachability

  /** `intersectsExistingRoom`: some cell of the padded box is already floor. */
  method IntersectsExistingRoom(a: array2<Cell>, x: int, y: int, w: int, h: int) returns (b: bool)
    ensures b <==> !PaddedClear(Contents(a), x, y, w, h)
  {
    ghost var g := Contents(a);
    var ry := y - 1;
    while ry < y + h + 1
      invariant forall c: GridPoint :: y - 1 <= c.y < ry && x - 1 <= c.x < x + w + 1 ==> !IsFloor(g, c)
      decreases y + h + 1 - ry
    {
      var rx := x - 1;
      while rx < x + w + 1
        invariant forall c: GridPoint :: y - 1 <= c.y < ry && x - 1 <= c.x < x + w + 1 ==> !IsFloor(g, c)
        invariant forall c: GridPoint :: c.y == ry && x - 1 <= c.x < rx ==> !IsFloor(g, c)
        decreases x + w + 1 - rx
      {
        if 0 <= ry < a.Length0 && 0 <= rx < a.Length1 && a[ry, rx] == Floor {
          assert IsFloor(g, GridPoint(rx, ry));
          return true;
        }
        rx := rx + 1;
      }
      ry := ry + 1;
    }
    return false;
  }

  /** Inside the rectangle at (x, y) of size w by h. */
  predicate InRect(x: int, y: int, w: int, h: int, c: GridPoint)
  {
    x <= c.x < x + w && y <= c.y < y + h
  }

  /** The loops of `generateDungeon` that make every cell of a rectangle
      floor; no other cell changes. */
  method CarveRect(a: array2<Cell>, x: int, y: int, w: int, h: int)
    requires 0 <= x && x + w <= a.Length1 && 0 <= y && y + h <= a.Length0
    modifies a
    ensures forall j, i :: 0 <= j < a.Length0 && 0 <= i < a.Length1 ==>
              a[j, i] == if InRect(x, y, w, h, GridPoint(i, j)) then Floor else old(a[j, i])
  {
    var ry := y;
    while ry < y + h
      invariant (y <= ry <= y + h) || (h <= 0 && ry == y)
      invariant forall j, i :: 0 <= j < a.Length0 && 0 <= i < a.Length1 ==>
                  a[j, i] == if x <= i < x + w && y <= j < ry then Floor else old(a[j, i])
      decreases y + h - ry
    {
      var rx := x;
      while rx < x + w
        invariant (x <= rx <= x + w) || (w <= 0 && rx == x)
        invariant forall j, i :: 0 <= j < a.Length0 && 0 <= i < a.Length1 ==>
                    a[j, i] == if (x <= i < x + w && y <= j < ry) || (j == ry && x <= i < rx) then Floor else old(a[j, i])
        decreases x + w - rx
      {
        a[ry, rx] := Floor;
        rx := rx + 1;
      }
      ry := ry + 1;
    }
  }

  /** `Math.sign` on integers. */
  function Sign(v: int): (s: int)
    ensures s == -1 <==> v < 0
    ensures s == 0 <==> v == 0
    ensures s == 1 <==> v > 0
  {
    if v < 0 then -1 else if v > 0 then 1 else 0
  }

  /** v lies between a and b, both included, in either order. */
  predicate Between(v: int, a: int, b: int)
  {
    (a <= v <= b) || (b <= v <= a)
  }

  /** On the walk of `carveLine` from (x1, y1) to (x2, y2): first along x on
      row y1, then along y on column x2. */
  predicate OnLine(x1: int, y1: int, x2: int, y2: int, c: GridPoint)
  {
    (c.y == y1 && Between(c.x, x1, x2)) || (c.x == x2 && Between(c.y, y1, y2))
  }

  /** `carveLine`: both endpoints and every cell of the walk between them
      become floor; no other cell changes. */
  method CarveLine(a: array2<Cell>, x1: int, y1: int, x2: int, y2: int)
    requires 0 <= x1 < a.Length1 && 0 <= x2 < a.Length1 && 0 <= y1 < a.Length0 && 0 <= y2 < a.Length0
    modifies a
    ensures forall j, i :: 0 <= j < a.Length0 && 0 <= i < a.Length1 ==>
              a[j, i] == if OnLine(x1, y1, x2, y2, GridPoint(i, j)) then Floor else old(a[j, i])
  {
    var dx := Sign(x2 - x1);
    var dy := Sign(y2 - y1);
    var x, y := x1, y1;
    a[y, x] := Floor;
    while x != x2 || y != y2
      invariant Between(x, x1, x2) && Between(y, y1, y2) && (y == y1 || x == x2)
      invariant forall j, i :: 0 <= j < a.Length0 && 0 <= i < a.Length1 ==>
                  a[j, i] == if OnLine(x1, y1, x, y, GridPoint(i, j)) then Floor else old(a[j, i])
      decreases Abs(x2 - x) + Abs(y2 - y)
    {
      if x != x2 {
        x := x + dx;
      } else if y != y2 {
        y := y + dy;
      }
      a[y, x] := Floor;
    }
  }

  // ---------------------------------------------------------------------
  // The grid value and the predicates the generator establishes
  // ---------------------------------------------------------------------

  /** The grid being generated, as the value the rest of the level reads. */
  function Contents(a: array2<Cell>): (g: Grid)
    reads a
    ensures |g| == a.Length0
    ensures forall j :: 0 <= j < |g| ==> |g[j]| == a.Length1
    ensures forall j, i :: 0 <= j < a.Length0 && 0 <= i < a.Length1 ==> g[j][i] == a[j, i]
  {
    seq(a.Length0, j requires 0 <= j < a.Length0 reads a =>
      seq(a.Length1, i requires 0 <= i < a.Length1 reads a => a[j, i]))
  }

  /** Every floor cell lies inside the outer ring of wall. */
  ghost predicate Interior(g: Grid)
  {
    forall c :: IsFloor(g, c) ==> 1 <= c.x < GridWidth - 1 && 1 <= c.y < GridHeight - 1
  }

  /** No floor cell becomes wall from `g` to `g'`. */
  ghost predicate FloorGrows(g: Grid, g': Grid)
  {
    forall c :: IsFloor(g, c) ==> IsFloor(g', c)
  }

  /** Every cell of the room is floor. */
  ghost predicate RoomCarved(g: Grid, r: Room)
  {
    forall c :: InRoom(r, c) ==> IsFloor(g, c)
  }

  /** No cell of the box at (x, y) of size w by h, padded by one cell on
      every side, is floor. */
  ghost predicate PaddedClear(g: Grid, x: int, y: int, w: int, h: int)
  {
    forall c: GridPoint :: x - 1 <= c.x < x + w + 1 && y - 1 <= c.y < y + h + 1 ==> !IsFloor(g, c)
  }

  /** A room of 4 to 8 cells per side whose box padded by one cell lies
      inside the grid and off its outer ring. */
  predicate RoomShape(r: Room)
  {
    4 <= r.w <= 8 && 4 <= r.h <= 8 &&
    1 <= r.x && r.x + r.w <= GridWidth - 2 && 1 <= r.y && r.y + r.h <= GridHeight - 2
  }

  /** The centre cell is `floor(x + w / 2), floor(y + h / 2)` and the world
      centre is that cell's position; a new room carries no tag. */
  predicate Centred(r: Room)
  {
    r.centerCell == GridPoint(r.x + r.w / 2, r.y + r.h / 2) &&
    r.centerX == GridToWorld(r.centerCell.x, r.centerCell.y).x &&
    r.centerZ == GridToWorld(r.centerCell.x, r.centerCell.y).z
  }

  /** Neither room comes within one cell of the other. */
  predicate Separated(a: Room, b: Room)
  {
    a.x + a.w < b.x || b.x + b.w < a.x || a.y + a.h < b.y || b.y + b.h < a.y
  }

  /** Two different rooms of the layout: distinct ids, one cell apart. */
  predicate Apart(a: Room, b: Room)
  {
    a.id != b.id && Separated(a, b)
  }

  /** The room pushed by `generateDungeon` for a placed rectangle. */
  function NewRoom(id: int, x: int, y: int, w: int, h: int): (r: Room)
    ensures r.id == id && r.x == x && r.y == y && r.w == w && r.h == h && Centred(r) && r.tag == Untagged
  {
    var centerCell := GridPoint(x + w / 2, y + h / 2);
    var centerWorld := GridToWorld(centerCell.x, centerCell.y);
    Room(id, x, y, w, h, centerWorld.x, centerWorld.z, centerCell, Untagged)
  }

  /** A room all of whose cells are floor is separated from any box whose
      padding holds no floor. */
  lemma SeparatedFromClear(g: Grid, r: Room, n: Room)
    requires RoomCarved(g, r) && PaddedClear(g, n.x, n.y, n.w, n.h)
    requires 1 <= r.w && 1 <= r.h && 1 <= n.w && 1 <= n.h
    ensures Separated(r, n)
  {
    if !Separated(r, n) {
      OverlapWitness(r, n);
      assert false;
    }
  }

  /** A cell shared by room `r` and the padded box of `n` when they are not
      separated. */
  function OverlapCell(r: Room, n: Room): GridPoint
  {
    GridPoint(if r.x < n.x - 1 then n.x - 1 else r.x, if r.y < n.y - 1 then n.y - 1 else r.y)
  }

  lemma OverlapWitness(r: Room, n: Room)
    requires !Separated(r, n) && 1 <= r.w && 1 <= r.h && 1 <= n.w && 1 <= n.h
    ensures var c := OverlapCell(r, n);
            InRoom(r, c) && n.x - 1 <= c.x < n.x + n.w + 1 && n.y - 1 <= c.y < n.y + n.h + 1
  {
  }

  /** Every floor cell lies in one of the rooms. */
  ghost predicate FloorInRooms(g: Grid, rooms: seq<Room>)
  {
    forall c :: IsFloor(g, c) ==> exists k :: 0 <= k < |rooms| && InRoom(rooms[k], c)
  }

  /** The candidate is one cell apart from every room so far. */
  predicate ClearOf(rooms: seq<Room>, n: Room)
  {
    forall k :: 0 <= k < |rooms| ==> Separated(rooms[k], n)
  }

  /** While the floor is exactly the cells of the carved rooms, the padded
      box of a candidate holds no floor iff the candidate is one cell apart
      from every room. */
  lemma PaddedClearIff(g: Grid, rooms: seq<Room>, n: Room)
    requires forall k :: 0 <= k < |rooms| ==> 1 <= rooms[k].w && 1 <= rooms[k].h && RoomCarved(g, rooms[k])
    requires FloorInRooms(g, rooms) && 1 <= n.w && 1 <= n.h
    ensures PaddedClear(g, n.x, n.y, n.w, n.h) <==> ClearOf(rooms, n)
  {
    if PaddedClear(g, n.x, n.y, n.w, n.h) {
      forall k | 0 <= k < |rooms|
        ensures Separated(rooms[k], n)
      {
        SeparatedFromClear(g, rooms[k], n);
      }
    } else {
      var c: GridPoint :| n.x - 1 <= c.x < n.x + n.w + 1 && n.y - 1 <= c.y < n.y + n.h + 1 && IsFloor(g, c);
      var k :| 0 <= k < |rooms| && InRoom(rooms[k], c);
      assert !Separated(rooms[k], n);
    }
  }

  // ---------------------------------------------------------------------
  // Room placement
  // ---------------------------------------------------------------------

  /** One attempt of the placement loop read from its four draws: width,
      height, x and y in that order. The room, with the next id, is pushed
      when fewer than 12 rooms are placed and it is one cell apart from
      each of them. */
  function PlaceStep(rooms: seq<Room>, q: seq<bv32>): seq<Room>
    requires |q| == 4
  {
    var n := Candidate(|rooms|, q);
    if |rooms| < 12 && ClearOf(rooms, n) then rooms + [n] else rooms
  }

  /** The rectangle of one attempt's draws, as a room numbered `id`. */
  function Candidate(id: int, q: seq<bv32>): (n: Room)
    requires |q| == 4
    ensures n.id == id && RoomShape(n) && Centred(n) && n.tag == Untagged
  {
    var w := RangeValue(q[0], 4, 8);
    var h := RangeValue(q[1], 4, 8);
    NewRoom(id, RangeValue(q[2], 1, GridWidth - w - 2), RangeValue(q[3], 1, GridHeight - h - 2), w, h)
  }

  /** The rectangle drawn from `drawn[n..]` is the candidate of those draws. */
  lemma CandidateOf(id: int, drawn: seq<bv32>, n: nat, w: int, h: int, x: int, y: int)
    requires |drawn| == n + 4 && w == RangeValue(drawn[n], 4, 8) && h == RangeValue(drawn[n + 1], 4, 8)
    requires x == RangeValue(drawn[n + 2], 1, GridWidth - w - 2) && y == RangeValue(drawn[n + 3], 1, GridHeight - h - 2)
    ensures Candidate(id, drawn[n..]) == NewRoom(id, x, y, w, h)
  {
    var q := drawn[n..];
    assert q[0] == drawn[n] && q[1] == drawn[n + 1] && q[2] == drawn[n + 2] && q[3] == drawn[n + 3];
    assert x == RangeValue(q[2], 1, GridWidth - RangeValue(q[0], 4, 8) - 2);
    assert y == RangeValue(q[3], 1, GridHeight - RangeValue(q[1], 4, 8) - 2);
  }

  /** The rooms the placement loop pushes for the draws `ds`, four per
      attempt, in the order they were drawn. */
  function Placement(ds: seq<bv32>): seq<Room>
    decreases |ds|
  {
    if |ds| < 4 then [] else PlaceStep(Placement(ds[..|ds| - 4]), ds[|ds| - 4..])
  }

  lemma PlacementSnoc(ds: seq<bv32>, q: seq<bv32>)
    requires |q| == 4
    ensures Placement(ds + q) == PlaceStep(Placement(ds), q)
  {
    assert (ds + q)[..|ds + q| - 4] == ds;
    assert (ds + q)[|ds + q| - 4..] == q;
  }

  /** A record that extends `before` splits at `n0` into the part of
      `before` after `n0` and the fresh draws. */
  lemma DrawnSplit(drawn: seq<bv32>, before: seq<bv32>, n0: nat)
    requires n0 <= |before| <= |drawn| && drawn[..|before|] == before
    ensures drawn[n0..] == before[n0..] + drawn[|before|..] && drawn[..n0] == before[..n0]
    ensures drawn[n0..|before|] == before[n0..]
  {
    assert drawn[..n0] == drawn[..|before|][..n0];
    assert drawn[n0..|before|] == drawn[..|before|][n0..];
  }

  /** `ds` is the stretch of the record that starts at index `n`. */
  ghost predicate DrawnAt(drawn: seq<bv32>, n: nat, ds: seq<bv32>)
  {
    n + |ds| <= |drawn| && forall j :: 0 <= j < |ds| ==> drawn[n + j] == ds[j]
  }

  lemma DrawnAtSlice(drawn: seq<bv32>, n: nat)
    requires n <= |drawn|
    ensures DrawnAt(drawn, n, drawn[n..])
  { }

  /** A stretch of the record stays in place as the record grows. */
  lemma DrawnAtKept(drawn: seq<bv32>, before: seq<bv32>, n: nat, ds: seq<bv32>)
    requires DrawnAt(before, n, ds) && |before| <= |drawn| && drawn[..|before|] == before
    ensures DrawnAt(drawn, n, ds)
  {
    forall j | 0 <= j < |ds|
      ensures drawn[n + j] == ds[j]
    {
      assert drawn[n + j] == drawn[..|before|][n + j];
    }
  }

  /** Whatever the draws, the placed rooms number at most 12 and at most
      one per attempt, are numbered 0, 1, ... by placement, have the
      placement shape and are pairwise one cell apart. */
  lemma {:induction false} PlacementLayout(ds: seq<bv32>)
    ensures var rooms := Placement(ds);
            |rooms| <= 12 && |rooms| <= |ds| / 4 &&
            (forall k :: 0 <= k < |rooms| ==> rooms[k].id == k && RoomShape(rooms[k])) &&
            (forall k, l :: 0 <= k < l < |rooms| ==> Separated(rooms[k], rooms[l]))
    decreases |ds|
  {
    if |ds| >= 4 {
      var before := Placement(ds[..|ds| - 4]);
      PlacementLayout(ds[..|ds| - 4]);
      var n := Candidate(|before|, ds[|ds| - 4..]);
      if |before| < 12 && ClearOf(before, n) {
        var rooms := before + [n];
        assert Placement(ds) == rooms;
        forall k, l | 0 <= k < l < |rooms|
          ensures Separated(rooms[k], rooms[l])
        {
          if l == |before| {
            assert rooms[k] == before[k] && rooms[l] == n;
          } else {
            assert rooms[k] == before[k] && rooms[l] == before[l];
          }
        }
        forall k | 0 <= k < |rooms|
          ensures rooms[k].id == k && RoomShape(rooms[k])
        {
          if k < |before| {
            assert rooms[k] == before[k];
          }
        }
      }
    }
  }

  /** What the placement loop keeps: rooms numbered by placement, each of
      the right shape, centred, untagged and carved, every two apart, and
      all floor inside the outer ring. */
  ghost predicate Layout(g: Grid, rooms: seq<Room>)
  {
    (forall k :: 0 <= k < |rooms| ==> rooms[k].id == k) &&
    (forall r :: r in rooms ==> RoomShape(r) && Centred(r) && r.tag == Untagged && RoomCarved(g, r)) &&
    Pairwise(rooms, Apart) &&
    Interior(g)
  }

  /** The placement loop of `generateDungeon`: up to 40 attempts of four
      draws each, stopping once 12 rooms are placed. A rectangle is carved
      and pushed only when its padded box holds no floor yet. */
  method PlaceRooms(a: array2<Cell>, rng: Rng) returns (rooms: seq<Room>, ghost attempts: nat)
    requires a.Length0 == GridHeight && a.Length1 == GridWidth && rng.Valid()
    requires forall j, i :: 0 <= j < a.Length0 && 0 <= i < a.Length1 ==> a[j, i] == Wall
    modifies a, rng
    ensures rng.Valid() && rng.seed == old(rng.seed)
    ensures |rng.drawn| == |old(rng.drawn)| + 4 * attempts
    ensures attempts <= 40 && |rooms| <= 12 && |rooms| <= attempts
    ensures attempts < 40 ==> |rooms| == 12
    ensures Layout(Contents(a), rooms) && FloorInRooms(Contents(a), rooms)
    ensures rng.drawn[..|old(rng.drawn)|] == old(rng.drawn)
    ensures rooms == Placement(rng.drawn[|old(rng.drawn)|..])
  {
    ghost var n0 := |rng.drawn|;
    rooms := [];
    var i := 0;
    assert rng.drawn[n0..] == [];
    while i < 40 && |rooms| < 12
      invariant 0 <= i <= 40
      invariant rng.Valid() && rng.seed == old(rng.seed)
      invariant |rng.drawn| == n0 + 4 * i && rng.drawn[..n0] == old(rng.drawn)
      invariant Layout(Contents(a), rooms) && FloorInRooms(Contents(a), rooms)
      invariant rooms == Placement(rng.drawn[n0..])
      decreases 40 - i
    {
      ghost var before := rng.drawn;
      rooms := PlaceAttempt(a, rng, rooms);
      ghost var q := rng.drawn[|before|..];
      DrawnSplit(rng.drawn, before, n0);
      PlacementSnoc(before[n0..], q);
      i := i + 1;
    }
    attempts := i;
    PlacementLayout(rng.drawn[n0..]);
  }

  /** One iteration of the placement loop: draw the rectangle, then try to
      place it; the rooms become `PlaceStep` of the four fresh draws. */
  method PlaceAttempt(a: array2<Cell>, rng: Rng, rooms: seq<Room>) returns (rooms': seq<Room>)
    requires a.Length0 == GridHeight && a.Length1 == GridWidth && rng.Valid()
    requires Layout(Contents(a), rooms) && FloorInRooms(Contents(a), rooms) && |rooms| < 12
    modifies a, rng
    ensures rng.Valid() && rng.seed == old(rng.seed) && |rng.drawn| == |old(rng.drawn)| + 4
    ensures rng.drawn[..|old(rng.drawn)|] == old(rng.drawn)
    ensures Layout(Contents(a), rooms') && FloorInRooms(Contents(a), rooms')
    ensures rooms' == PlaceStep(rooms, rng.drawn[|old(rng.drawn)|..])
  {
    ghost var n := |rng.drawn|;
    var roomWidth, roomHeight, x, y := DrawRect(rng);
    CandidateOf(|rooms|, rng.drawn, n, roomWidth, roomHeight, x, y);
    rooms' := TryPlace(a, rooms, x, y, roomWidth, roomHeight);
  }

  /** The four draws of one attempt: width and height in [4, 8], then a
      corner that keeps the room and its padding off the outer ring. */
  method DrawRect(rng: Rng) returns (w: int, h: int, x: int, y: int)
    requires rng.Valid()
    modifies rng
    ensures rng.Valid() && rng.seed == old(rng.seed) && |rng.drawn| == |old(rng.drawn)| + 4
    ensures rng.drawn[..|old(rng.drawn)|] == old(rng.drawn)
    ensures 4 <= w <= 8 && 4 <= h <= 8 && 1 <= x <= GridWidth - w - 2 && 1 <= y <= GridHeight - h - 2
    ensures var n := |old(rng.drawn)|;
            w == RangeValue(rng.drawn[n], 4, 8) && h == RangeValue(rng.drawn[n + 1], 4, 8) &&
            x == RangeValue(rng.drawn[n + 2], 1, GridWidth - w - 2) &&
            y == RangeValue(rng.drawn[n + 3], 1, GridHeight - h - 2)
  {
    w := RandRange(rng, 4, 8);
    h := RandRange(rng, 4, 8);
    x := RandRange(rng, 1, GridWidth - w - 2);
    y := RandRange(rng, 1, GridHeight - h - 2);
  }

  /** One attempt after its draws: `continue` when the padded box meets
      floor, else carve the rectangle and push the room with the next id. */
  method TryPlace(a: array2<Cell>, rooms: seq<Room>, x: int, y: int, w: int, h: int) returns (rooms': seq<Room>)
    requires a.Length0 == GridHeight && a.Length1 == GridWidth
    requires 4 <= w <= 8 && 4 <= h <= 8 && 1 <= x <= GridWidth - w - 2 && 1 <= y <= GridHeight - h - 2
    requires Layout(Contents(a), rooms) && FloorInRooms(Contents(a), rooms)
    modifies a
    ensures Layout(Contents(a), rooms') && FloorInRooms(Contents(a), rooms')
    ensures rooms' == (if PaddedClear(old(Contents(a)), x, y, w, h) then rooms + [NewRoom(|rooms|, x, y, w, h)] else rooms)
    ensures PaddedClear(old(Contents(a)), x, y, w, h) <==> ClearOf(rooms, NewRoom(|rooms|, x, y, w, h))
  {
    forall k | 0 <= k < |rooms|
      ensures 1 <= rooms[k].w && 1 <= rooms[k].h && RoomCarved(Contents(a), rooms[k])
    {
      assert rooms[k] in rooms;
    }
    PaddedClearIff(Contents(a), rooms, NewRoom(|rooms|, x, y, w, h));
    var hit := IntersectsExistingRoom(a, x, y, w, h);
    if hit {
      return rooms;
    }
    var room := NewRoom(|rooms|, x, y, w, h);
    ghost var before := Contents(a);
    PlaceRoom(a, rooms, room);
    rooms' := rooms + [room];
    forall c | IsFloor(Contents(a), c)
      ensures exists k :: 0 <= k < |rooms'| && InRoom(rooms'[k], c)
    {
      if IsFloor(before, c) {
        var k :| 0 <= k < |rooms| && InRoom(rooms[k], c);
        assert rooms'[k] == rooms[k];
      } else {
        assert InRoom(rooms'[|rooms|], c);
      }
    }
    forall k | 0 <= k < |rooms'|
      ensures rooms'[k].id == k
    {
      if k < |rooms| {
        assert rooms'[k] == rooms[k];
      }
    }
  }

  /** Carving a rectangle whose padded box holds no floor: the rooms placed
      so far stay carved and apart from it, and the new room is carved. */
  method PlaceRoom(a: array2<Cell>, rooms: seq<Room>, room: Room)
    requires a.Length0 == GridHeight && a.Length1 == GridWidth
    requires RoomShape(room) && room.id == |rooms|
    requires PaddedClear(Contents(a), room.x, room.y, room.w, room.h)
    requires forall k :: 0 <= k < |rooms| ==> rooms[k].id == k
    requires forall r :: r in rooms ==> RoomShape(r) && RoomCarved(Contents(a), r)
    requires Pairwise(rooms, Apart) && Interior(Contents(a))
    modifies a
    ensures forall r :: r in rooms + [room] ==> RoomCarved(Contents(a), r)
    ensures Pairwise(rooms + [room], Apart)
    ensures Interior(Contents(a))
    ensures forall c :: IsFloor(Contents(a), c) ==> IsFloor(old(Contents(a)), c) || InRoom(room, c)
  {
    ghost var g := Contents(a);
    forall k | 0 <= k < |rooms|
      ensures Apart(rooms[k], room) && Apart(room, rooms[k])
    {
      assert rooms[k] in rooms;
      SeparatedFromClear(g, rooms[k], room);
    }
    CarveRect(a, room.x, room.y, room.w, room.h);
    ghost var g' := Contents(a);
    assert FloorGrows(g, g');
    var all := rooms + [room];
    forall i, j | 0 <= i < |all| && 0 <= j < |all| && i != j
      ensures Apart(all[i], all[j])
    {
      if i < |rooms| && j < |rooms| {
        assert all[i] == rooms[i] && all[j] == rooms[j];
      }
    }
  }

  // ---------------------------------------------------------------------
  // Corridors
  // ---------------------------------------------------------------------

  /** On the corridor of `carveCorridor` from `from` to `to`: along x first
      when `horizontal`, else along y first. */
  predicate OnCorridor(from: GridPoint, to: GridPoint, horizontal: bool, c: GridPoint)
  {
    if horizontal then OnLine(from.x, from.y, to.x, from.y, c) || OnLine(to.x, from.y, to.x, to.y, c)
    else OnLine(from.x, from.y, from.x, to.y, c) || OnLine(from.x, to.y, to.x, to.y, c)
  }

  /** Every cell of the corridor is floor. */
  ghost predicate CorridorCarved(g: Grid, from: GridPoint, to: GridPoint, horizontal: bool)
  {
    forall c :: OnCorridor(from, to, horizontal, c) ==> IsFloor(g, c)
  }

  /** Off the outer ring of the grid. */
  predicate Inner(c: GridPoint)
  {
    1 <= c.x < GridWidth - 1 && 1 <= c.y < GridHeight - 1
  }

  /** The two lines of `carveCorridor` once the orientation is known; no
      other cell changes. */
  method CarveBend(a: array2<Cell>, from: GridPoint, to: GridPoint, horizontal: bool)
    requires a.Length0 == GridHeight && a.Length1 == GridWidth && InBounds(from) && InBounds(to)
    modifies a
    ensures forall j, i :: 0 <= j < a.Length0 && 0 <= i < a.Length1 ==>
              a[j, i] == if OnCorridor(from, to, horizontal, GridPoint(i, j)) then Floor else old(a[j, i])
  {
    if horizontal {
      CarveLine(a, from.x, from.y, to.x, from.y);
      CarveLine(a, to.x, from.y, to.x, to.y);
    } else {
      CarveLine(a, from.x, from.y, from.x, to.y);
      CarveLine(a, from.x, to.y, to.x, to.y);
    }
  }

  /** `carveCorridor`: one draw picks the orientation (`rng() > 0.5` is along
      x first), then two lines are carved. */
  method CarveCorridor(a: array2<Cell>, from: GridPoint, to: GridPoint, rng: Rng) returns (horizontalFirst: bool)
    requires a.Length0 == GridHeight && a.Length1 == GridWidth && InBounds(from) && InBounds(to)
    requires rng.Valid()
    modifies a, rng
    ensures rng.Valid() && rng.seed == old(rng.seed) && |rng.drawn| == |old(rng.drawn)| + 1
    ensures rng.drawn[..|old(rng.drawn)|] == old(rng.drawn)
    ensures horizontalFirst == AboveHalf(rng.drawn[|old(rng.drawn)|])
    ensures forall j, i :: 0 <= j < a.Length0 && 0 <= i < a.Length1 ==>
              a[j, i] == if OnCorridor(from, to, horizontalFirst, GridPoint(i, j)) then Floor else old(a[j, i])
    ensures FloorGrows(old(Contents(a)), Contents(a))
    ensures CorridorCarved(Contents(a), from, to, horizontalFirst)
    ensures forall c :: IsFloor(Contents(a), c) ==> IsFloor(old(Contents(a)), c) || OnCorridor(from, to, horizontalFirst, c)
    ensures Inner(from) && Inner(to) && Interior(old(Contents(a))) ==> Interior(Contents(a))
  {
    ghost var before := Contents(a);
    var u := rng.Next();
    horizontalFirst := AboveHalf(u);
    CarveBend(a, from, to, horizontalFirst);
    ghost var after := Contents(a);
    forall c | OnCorridor(from, to, horizontalFirst, c)
      ensures IsFloor(after, c)
    {
      CorridorInBounds(from, to, horizontalFirst, c);
      assert GridPoint(c.x, c.y) == c;
    }
    forall c | IsFloor(after, c) && !IsFloor(before, c)
      ensures OnCorridor(from, to, horizontalFirst, c)
    {
      assert GridPoint(c.x, c.y) == c;
    }
    if Inner(from) && Inner(to) && Interior(before) {
      forall c | IsFloor(after, c) && !IsFloor(before, c)
        ensures Inner(c)
      {
        assert GridPoint(c.x, c.y) == c;
        CorridorInner(from, to, horizontalFirst, c);
      }
    }
  }

  /** Corridors 1 to `upto - 1` of the chain are carved; corridor k joins the
      centres of rooms k - 1 and k and has orientation `turns[k - 1]`. */
  ghost predicate Corridors(g: Grid, rooms: seq<Room>, turns: seq<bool>, upto: int)
  {
    forall k :: 1 <= k < upto && k < |rooms| && k - 1 < |turns| ==>
      CorridorCarved(g, rooms[k - 1].centerCell, rooms[k].centerCell, turns[k - 1])
  }

  /** Cell c lies on one of corridors 1 to `upto - 1` of the chain. */
  ghost predicate OnSomeCorridor(rooms: seq<Room>, turns: seq<bool>, upto: int, c: GridPoint)
  {
    exists k :: 1 <= k < upto && k < |rooms| && k - 1 < |turns| &&
      OnCorridor(rooms[k - 1].centerCell, rooms[k].centerCell, turns[k - 1], c)
  }

  /** Every floor cell of g' was floor in g or lies on one of corridors 1 to
      `upto - 1`. */
  ghost predicate CorridorsOnly(g: Grid, g': Grid, rooms: seq<Room>, turns: seq<bool>, upto: int)
  {
    forall c :: IsFloor(g', c) ==> IsFloor(g, c) || OnSomeCorridor(rooms, turns, upto, c)
  }

  /** Orientation k was decided by draw n + k. */
  ghost predicate TurnsDrawn(turns: seq<bool>, drawn: seq<bv32>, n: nat)
  {
    n + |turns| <= |drawn| && forall k :: 0 <= k < |turns| ==> turns[k] == AboveHalf(drawn[n + k])
  }

  lemma TurnsDrawnNext(turns: seq<bool>, drawn: seq<bv32>, drawn': seq<bv32>, n: nat, h: bool)
    requires TurnsDrawn(turns, drawn, n) && |drawn| == n + |turns|
    requires |drawn'| == |drawn| + 1 && drawn'[..|drawn|] == drawn && h == AboveHalf(drawn'[|drawn|])
    ensures TurnsDrawn(turns + [h], drawn', n)
  {
    forall k | 0 <= k < |turns| + 1
      ensures (turns + [h])[k] == AboveHalf(drawn'[n + k])
    {
      if k < |turns| {
        assert drawn'[n + k] == drawn[n + k];
      }
    }
  }

  lemma CorridorsGrow(g: Grid, g': Grid, rooms: seq<Room>, turns: seq<bool>, upto: int)
    requires Corridors(g, rooms, turns, upto) && FloorGrows(g, g')
    ensures Corridors(g', rooms, turns, upto)
  {
  }

  /** A corridor between two cells of the grid stays in the grid. */
  lemma CorridorInBounds(from: GridPoint, to: GridPoint, horizontal: bool, c: GridPoint)
    requires InBounds(from) && InBounds(to)
    ensures OnCorridor(from, to, horizontal, c) ==> InBounds(c)
  {
  }

  /** A corridor between two inner cells stays inner. */
  lemma CorridorInner(from: GridPoint, to: GridPoint, horizontal: bool, c: GridPoint)
    requires Inner(from) && Inner(to)
    ensures OnCorridor(from, to, horizontal, c) ==> Inner(c)
  {
  }

  /** What the corridor loop keeps: corridors 1 to i - 1 carved with the
      orientations drawn from draw n on, nothing else drawn, and only inner
      cells floor. */
  ghost predicate Chain(g: Grid, rooms: seq<Room>, turns: seq<bool>, drawn: seq<bv32>, n: nat, i: int)
  {
    && |turns| == i - 1 && |drawn| == n + |turns|
    && TurnsDrawn(turns, drawn, n)
    && Interior(g)
    && Corridors(g, rooms, turns, i)
  }

  /** One turn of the corridor loop: room i is joined to room i - 1. */
  method JoinToPrevious(a: array2<Cell>, rooms: seq<Room>, i: int, rng: Rng, ghost turns: seq<bool>, ghost n: nat,
                        ghost g0: Grid)
    returns (ghost turns': seq<bool>)
    requires a.Length0 == GridHeight && a.Length1 == GridWidth && rng.Valid()
    requires 1 <= i < |rooms| && Inner(rooms[i - 1].centerCell) && Inner(rooms[i].centerCell)
    requires Chain(Contents(a), rooms, turns, rng.drawn, n, i) && CorridorsOnly(g0, Contents(a), rooms, turns, i)
    modifies a, rng
    ensures rng.Valid() && rng.seed == old(rng.seed) && |rng.drawn| == |old(rng.drawn)| + 1
    ensures rng.drawn[..|old(rng.drawn)|] == old(rng.drawn)
    ensures FloorGrows(old(Contents(a)), Contents(a))
    ensures Chain(Contents(a), rooms, turns', rng.drawn, n, i + 1)
    ensures turns' == turns + [AboveHalf(rng.drawn[|old(rng.drawn)|])]
    ensures CorridorsOnly(g0, Contents(a), rooms, turns', i + 1)
  {
    ghost var before := Contents(a);
    ghost var drawnBefore := rng.drawn;
    var horizontal := CarveCorridor(a, rooms[i - 1].centerCell, rooms[i].centerCell, rng);
    ChainNext(before, Contents(a), rooms, turns, drawnBefore, rng.drawn, n, i, horizontal);
    CorridorsOnlyNext(g0, before, Contents(a), rooms, turns, i, horizontal);
    turns' := turns + [horizontal];
  }

  lemma ChainNext(g: Grid, g': Grid, rooms: seq<Room>, turns: seq<bool>, drawn: seq<bv32>, drawn': seq<bv32>,
                  n: nat, i: int, h: bool)
    requires 1 <= i < |rooms| && Chain(g, rooms, turns, drawn, n, i)
    requires FloorGrows(g, g') && Interior(g') && CorridorCarved(g', rooms[i - 1].centerCell, rooms[i].centerCell, h)
    requires |drawn'| == |drawn| + 1 && drawn'[..|drawn|] == drawn && h == AboveHalf(drawn'[|drawn|])
    ensures Chain(g', rooms, turns + [h], drawn', n, i + 1)
  {
    CorridorsGrow(g, g', rooms, turns, i);
    TurnsDrawnNext(turns, drawn, drawn', n, h);
  }

  /** A turn of the corridor loop adds floor only on the corridor it carves. */
  lemma CorridorsOnlyNext(g0: Grid, g: Grid, g': Grid, rooms: seq<Room>, turns: seq<bool>, i: int, h: bool)
    requires 1 <= i < |rooms| && |turns| == i - 1 && CorridorsOnly(g0, g, rooms, turns, i)
    requires forall c :: IsFloor(g', c) ==> IsFloor(g, c) || OnCorridor(rooms[i - 1].centerCell, rooms[i].centerCell, h, c)
    ensures CorridorsOnly(g0, g', rooms, turns + [h], i + 1)
  {
    var t := turns + [h];
    forall c | IsFloor(g', c) && !IsFloor(g0, c)
      ensures OnSomeCorridor(rooms, t, i + 1, c)
    {
      if IsFloor(g, c) {
        var k :| 1 <= k < i && k < |rooms| && k - 1 < |turns| &&
                 OnCorridor(rooms[k - 1].centerCell, rooms[k].centerCell, turns[k - 1], c);
        assert t[k - 1] == turns[k - 1];
      } else {
        assert t[i - 1] == h;
      }
    }
  }

  /** The loop of `generateDungeon` joining each room to the one before it,
      in the order of the list; `turns` records the orientations drawn. */
  method CarveCorridors(a: array2<Cell>, rooms: seq<Room>, rng: Rng) returns (ghost turns: seq<bool>)
    requires a.Length0 == GridHeight && a.Length1 == GridWidth && rng.Valid()
    requires forall k :: 0 <= k < |rooms| ==> Inner(rooms[k].centerCell)
    requires Interior(Contents(a))
    modifies a, rng
    ensures rng.Valid() && rng.seed == old(rng.seed)
    ensures |turns| == (if |rooms| == 0 then 0 else |rooms| - 1)
    ensures |rng.drawn| == |old(rng.drawn)| + |turns| && rng.drawn[..|old(rng.drawn)|] == old(rng.drawn)
    ensures TurnsDrawn(turns, rng.drawn, |old(rng.drawn)|)
    ensures FloorGrows(old(Contents(a)), Contents(a)) && Interior(Contents(a))
    ensures Corridors(Contents(a), rooms, turns, |rooms|)
    ensures CorridorsOnly(old(Contents(a)), Contents(a), rooms, turns, |rooms|)
  {
    ghost var g0 := Contents(a);
    ghost var n := |rng.drawn|;
    turns := [];
    var i := 1;
    while i < |rooms|
      invariant 1 <= i && (i <= |rooms| || i == 1)
      invariant a.Length0 == GridHeight && a.Length1 == GridWidth
      invariant rng.Valid() && rng.seed == old(rng.seed)
      invariant FloorGrows(g0, Contents(a))
      invariant Chain(Contents(a), rooms, turns, rng.drawn, n, i)
      invariant CorridorsOnly(g0, Contents(a), rooms, turns, i)
      invariant rng.drawn[..n] == old(rng.drawn)
      decreases |rooms| - i
    {
      ghost var drawnBefore := rng.drawn;
      turns := JoinToPrevious(a, rooms, i, rng, turns, n, g0);
      assert rng.drawn[..n] == drawnBefore[..n];
      i := i + 1;
    }
    ChainDone(g0, Contents(a), rooms, turns, rng.drawn, n, i);
  }

  /** When the corridor loop stops, every corridor of the list is carved and
      nothing else was. */
  lemma ChainDone(g0: Grid, g: Grid, rooms: seq<Room>, turns: seq<bool>, drawn: seq<bv32>, n: nat, i: int)
    requires 1 <= i && (i == |rooms| || (i == 1 && |rooms| <= 1))
    requires Chain(g, rooms, turns, drawn, n, i) && CorridorsOnly(g0, g, rooms, turns, i)
    ensures |turns| == (if |rooms| == 0 then 0 else |rooms| - 1)
    ensures Corridors(g, rooms, turns, |rooms|) && CorridorsOnly(g0, g, rooms, turns, |rooms|)
  {
  }

  // ---------------------------------------------------------------------
  // The exit room
  // ---------------------------------------------------------------------

  /** Distance of a room's centre from the start room's centre. */
  function StartDistance(rooms: seq<Room>, r: Room): nat
    requires |rooms| > 0
  {
    Manhattan(r.centerCell, rooms[0].centerCell)
  }

  /** The exit-room loop of `generateDungeon`: starting from the last room,
      any room strictly farther from the start room replaces the choice. */
  method PickExitRoom(rooms: seq<Room>) returns (exitRoom: Room)
    requires |rooms| > 0
    ensures exitRoom in rooms
    ensures forall r :: r in rooms ==> StartDistance(rooms, r) <= StartDistance(rooms, exitRoom)
    ensures StartDistance(rooms, rooms[|rooms| - 1]) == StartDistance(rooms, exitRoom) ==> exitRoom == rooms[|rooms| - 1]
    ensures exitRoom == rooms[|rooms| - 1] ||
            exists i :: 0 <= i < |rooms| && rooms[i] == exitRoom &&
                        forall k :: 0 <= k < i ==> StartDistance(rooms, rooms[k]) < StartDistance(rooms, exitRoom)
  {
    var startRoom := rooms[0];
    exitRoom := rooms[|rooms| - 1];
    ghost var at := |rooms| - 1;
    for i := 0 to |rooms|
      invariant 0 <= at < |rooms| && rooms[at] == exitRoom
      invariant forall k :: 0 <= k < i ==> StartDistance(rooms, rooms[k]) <= StartDistance(rooms, exitRoom)
      invariant StartDistance(rooms, rooms[|rooms| - 1]) <= StartDistance(rooms, exitRoom)
      invariant StartDistance(rooms, rooms[|rooms| - 1]) == StartDistance(rooms, exitRoom) ==> exitRoom == rooms[|rooms| - 1]
      invariant exitRoom == rooms[|rooms| - 1] ||
                (at < i && forall k :: 0 <= k < at ==> StartDistance(rooms, rooms[k]) < StartDistance(rooms, exitRoom))
    {
      var room := rooms[i];
      if Manhattan(room.centerCell, startRoom.centerCell) > Manhattan(exitRoom.centerCell, startRoom.centerCell) {
        exitRoom := room;
        at := i;
      }
    }
  }

  // ---------------------------------------------------------------------
  // generateDungeon
  // ---------------------------------------------------------------------

  /** The sort key of `generateDungeon`: the x of the centre cell. */
  function CenterX(r: Room): int
  {
    r.centerCell.x
  }

  /** The rooms as `generateDungeon` returns them: each of the placement
      shape, centred, untagged and carved; distinct ids below the room count;
      pairwise one cell apart; and no floor on the outer ring. */
  ghost predicate RoomsLaidOut(g: Grid, rooms: seq<Room>)
  {
    (forall r :: r in rooms ==> 0 <= r.id < |rooms|) &&
    (forall r :: r in rooms ==> RoomShape(r) && Centred(r) && r.tag == Untagged && RoomCarved(g, r)) &&
    Pairwise(rooms, Apart) &&
    Interior(g)
  }

  /** A room of the placement shape has its centre off the outer ring. */
  lemma CentreInner(r: Room)
    requires RoomShape(r) && Centred(r)
    ensures Inner(r.centerCell)
  {
  }

  /** Sorting by centre keeps the laid-out rooms laid out. */
  lemma SortedLayout(g: Grid, rooms: seq<Room>)
    requires Layout(g, rooms)
    ensures RoomsLaidOut(g, SortBy(rooms, CenterX)) && SortedBy(SortBy(rooms, CenterX), CenterX)
  {
    var sorted := SortBy(rooms, CenterX);
    SortByMembers(rooms, CenterX);
    SortByPairwise(rooms, CenterX, Apart);
    SortBySorted(rooms, CenterX);
    forall r | r in sorted
      ensures 0 <= r.id < |sorted|
    {
      var k :| 0 <= k < |rooms| && rooms[k] == r;
    }
  }

  /** Carving more floor keeps every room carved and the floor inner. */
  lemma LaidOutGrows(g: Grid, g': Grid, rooms: seq<Room>)
    requires RoomsLaidOut(g, rooms) && FloorGrows(g, g') && Interior(g')
    ensures RoomsLaidOut(g', rooms)
  {
    forall r | r in rooms
      ensures RoomCarved(g', r)
    {
      assert RoomCarved(g, r);
    }
  }

  /** The fallback of `generateDungeon` when no room was placed: a 6 by 6
      room at (floor(width / 2) - 3, floor(height / 2) - 3) with the next
      id, which is 0. */
  method PlaceFallbackRoom(a: array2<Cell>) returns (room: Room)
    requires a.Length0 == GridHeight && a.Length1 == GridWidth && Interior(Contents(a))
    modifies a
    ensures room == NewRoom(0, GridWidth / 2 - 3, GridHeight / 2 - 3, 6, 6)
    ensures RoomsLaidOut(Contents(a), [room]) && FloorGrows(old(Contents(a)), Contents(a))
    ensures forall c :: IsFloor(Contents(a), c) ==> IsFloor(old(Contents(a)), c) || InRoom(room, c)
  {
    ghost var before := Contents(a);
    var x, y := GridWidth / 2 - 3, GridHeight / 2 - 3;
    CarveRect(a, x, y, 6, 6);
    room := NewRoom(0, x, y, 6, 6);
    ghost var after := Contents(a);
    forall c | InRoom(room, c)
      ensures IsFloor(after, c)
    {
      assert a[c.y, c.x] == Floor;
    }
    forall c | IsFloor(after, c)
      ensures 1 <= c.x < GridWidth - 1 && 1 <= c.y < GridHeight - 1
    {
      assert GridPoint(c.x, c.y) == c;
    }
  }

  /** `generateDungeon` on a 41 by 41 grid: place rooms, sort them by centre
      x, join each to the one before it by a corridor, fall back to a single
      room when none was placed, and take as exit the room farthest from the
      first. `attempts` counts the placement attempts, `draws` are their
      draws, `placed` the rooms they placed and `turns` the corridor
      orientations drawn after them. */
  method GenerateDungeon(rng: Rng) returns (grid: Grid, rooms: seq<Room>, exitRoom: Room,
                                           ghost attempts: nat, ghost turns: seq<bool>,
                                           ghost placed: seq<Room>, ghost draws: seq<bv32>)
    requires rng.Valid()
    modifies rng
    ensures rng.Valid() && rng.seed == old(rng.seed)
    ensures attempts <= 40 && 1 <= |rooms| <= 12 && WellFormed(grid)
    ensures |rng.drawn| == |old(rng.drawn)| + 4 * attempts + |turns|
    ensures Connected(grid, placed, rooms, turns, rng.drawn) && FloorExactly(grid, rooms, turns)
    ensures |draws| == 4 * attempts && DrawnAt(rng.drawn, |old(rng.drawn)|, draws) && placed == Placement(draws)
    ensures exitRoom in rooms
    ensures forall r :: r in rooms ==> StartDistance(rooms, r) <= StartDistance(rooms, exitRoom)
    ensures StartDistance(rooms, rooms[|rooms| - 1]) == StartDistance(rooms, exitRoom) ==> exitRoom == rooms[|rooms| - 1]
    ensures exitRoom == rooms[|rooms| - 1] ||
            exists i :: 0 <= i < |rooms| && rooms[i] == exitRoom &&
                        forall k :: 0 <= k < i ==> StartDistance(rooms, rooms[k]) < StartDistance(rooms, exitRoom)
    ensures FloorConnected(grid)
    ensures forall i, j :: 0 <= i < |rooms| && 0 <= j < |rooms| ==>
              Reaches(grid, {}, rooms[i].centerCell, rooms[j].centerCell)
  {
    grid, rooms, attempts, turns, placed, draws := LayOut(rng);
    exitRoom := PickExitRoom(rooms);
    FloorJoined(grid, rooms, turns);
    CentresJoined(grid, rooms);
  }

  /** The placement loop followed by the sort and the corridors, on a fresh
      all-wall grid. */
  method LayOut(rng: Rng) returns (grid: Grid, rooms: seq<Room>, ghost attempts: nat, ghost turns: seq<bool>,
                                   ghost placed: seq<Room>, ghost draws: seq<bv32>)
    requires rng.Valid()
    modifies rng
    ensures rng.Valid() && rng.seed == old(rng.seed)
    ensures attempts <= 40 && 1 <= |rooms| <= 12 && WellFormed(grid)
    ensures |rng.drawn| == |old(rng.drawn)| + 4 * attempts + |turns|
    ensures Connected(grid, placed, rooms, turns, rng.drawn) && FloorExactly(grid, rooms, turns)
    ensures |draws| == 4 * attempts && DrawnAt(rng.drawn, |old(rng.drawn)|, draws) && placed == Placement(draws)
  {
    var a := WallGrid();
    ghost var n0 := |rng.drawn|;
    var found;
    found, attempts := PlaceRooms(a, rng);
    placed := found;
    ghost var mid := rng.drawn;
    draws := mid[n0..];
    DrawnAtSlice(mid, n0);
    rooms, turns := ConnectRooms(a, found, rng, n0, draws);
    grid := Contents(a);
  }

  /** A fresh 41 by 41 grid of wall. */
  method WallGrid() returns (a: array2<Cell>)
    ensures fresh(a) && a.Length0 == GridHeight && a.Length1 == GridWidth
    ensures forall j, i :: 0 <= j < a.Length0 && 0 <= i < a.Length1 ==> a[j, i] == Wall
  {
    a := new Cell[GridHeight, GridWidth]((j, i) => Wall);
  }

  /** The corridor stage, whose draws are the last |turns| of `drawn`: the
      placed rooms sorted by centre x, or the fallback room when none was
      placed; each room carved and the rooms apart; one corridor per
      consecutive pair, turned by one draw each. */
  ghost predicate Connected(g: Grid, placed: seq<Room>, rooms: seq<Room>, turns: seq<bool>, drawn: seq<bv32>)
  {
    (if |placed| == 0 then rooms == [NewRoom(0, GridWidth / 2 - 3, GridHeight / 2 - 3, 6, 6)]
     else rooms == SortBy(placed, CenterX)) &&
    |turns| == |rooms| - 1 && |turns| <= |drawn| && TurnsDrawn(turns, drawn, |drawn| - |turns|) &&
    RoomsLaidOut(g, rooms) && SortedBy(rooms, CenterX) && Corridors(g, rooms, turns, |rooms|)
  }

  /** A cell lies in one of the rooms. */
  ghost predicate InSomeRoom(rooms: seq<Room>, c: GridPoint)
  {
    exists k :: 0 <= k < |rooms| && InRoom(rooms[k], c)
  }

  /** The floor is exactly the cells of the rooms and of the corridors
      joining consecutive rooms: nothing else was carved. */
  ghost predicate FloorExactly(g: Grid, rooms: seq<Room>, turns: seq<bool>)
  {
    forall c :: IsFloor(g, c) <==> InSomeRoom(rooms, c) || OnSomeCorridor(rooms, turns, |rooms|, c)
  }

  /** Sorting keeps every floor cell inside some room. */
  lemma FloorInSorted(g: Grid, rooms: seq<Room>)
    requires FloorInRooms(g, rooms)
    ensures FloorInRooms(g, SortBy(rooms, CenterX))
  {
    var sorted := SortBy(rooms, CenterX);
    SortByMembers(rooms, CenterX);
    forall c | IsFloor(g, c)
      ensures exists k :: 0 <= k < |sorted| && InRoom(sorted[k], c)
    {
      var k :| 0 <= k < |rooms| && InRoom(rooms[k], c);
      assert rooms[k] in sorted;
      var j :| 0 <= j < |sorted| && sorted[j] == rooms[k];
    }
  }

  /** Floor that was inside the rooms, grown only along the corridors, with
      rooms and corridors carved: exactly the rooms and the corridors. */
  lemma ExactFloor(g0: Grid, g: Grid, rooms: seq<Room>, turns: seq<bool>)
    requires FloorInRooms(g0, rooms) && CorridorsOnly(g0, g, rooms, turns, |rooms|)
    requires RoomsLaidOut(g, rooms) && Corridors(g, rooms, turns, |rooms|)
    ensures FloorExactly(g, rooms, turns)
  {
    forall c
      ensures IsFloor(g, c) <==> InSomeRoom(rooms, c) || OnSomeCorridor(rooms, turns, |rooms|, c)
    {
      if InSomeRoom(rooms, c) {
        var k :| 0 <= k < |rooms| && InRoom(rooms[k], c);
        assert rooms[k] in rooms;
      } else if OnSomeCorridor(rooms, turns, |rooms|, c) {
        var k :| 1 <= k < |rooms| && k < |rooms| && k - 1 < |turns| &&
                 OnCorridor(rooms[k - 1].centerCell, rooms[k].centerCell, turns[k - 1], c);
        assert CorridorCarved(g, rooms[k - 1].centerCell, rooms[k].centerCell, turns[k - 1]);
      }
    }
  }

  /** No placed room and no corridor: the fallback room is the whole floor. */
  lemma FallbackExact(g0: Grid, g: Grid, g': Grid, room: Room)
    requires FloorInRooms(g0, []) && CorridorsOnly(g0, g, [], [], 0)
    requires forall c :: IsFloor(g', c) ==> IsFloor(g, c) || InRoom(room, c)
    requires RoomCarved(g', room)
    ensures FloorExactly(g', [room], [])
  {
    forall c
      ensures IsFloor(g', c) <==> InSomeRoom([room], c) || OnSomeCorridor([room], [], 1, c)
    {
      if InRoom(room, c) {
        assert [room][0] == room;
      }
    }
  }

  // ---------------------------------------------------------------------
  // Connectivity: the flood fill with every door open
  // ---------------------------------------------------------------------

  /** Every cell of a carved corridor between two cells of the grid is
      reached from its first end: along the first line, then the second. */
  lemma CorridorReached(g: Grid, from: GridPoint, to: GridPoint, horizontal: bool, c: GridPoint)
    requires InBounds(from) && InBounds(to) && CorridorCarved(g, from, to, horizontal)
    requires OnCorridor(from, to, horizontal, c)
    ensures Reaches(g, {}, from, c)
  {
    forall d | OnCorridor(from, to, horizontal, d)
      ensures Enterable(g, {}, d)
    {
      CorridorInBounds(from, to, horizontal, d);
    }
    if horizontal {
      if c.y == from.y && Between(c.x, from.x, to.x) {
        ReachesAlongRow(g, {}, from.y, from.x, c.x);
      } else {
        ReachesAlongRow(g, {}, from.y, from.x, to.x);
        ReachesAlongColumn(g, {}, to.x, from.y, c.y);
        ReachesTrans(g, {}, from, GridPoint(to.x, from.y), c);
      }
    } else {
      if c.x == from.x && Between(c.y, from.y, to.y) {
        ReachesAlongColumn(g, {}, from.x, from.y, c.y);
      } else {
        ReachesAlongColumn(g, {}, from.x, from.y, to.y);
        ReachesAlongRow(g, {}, to.y, from.x, c.x);
        ReachesTrans(g, {}, from, GridPoint(from.x, to.y), c);
      }
    }
  }

  /** Every cell of a carved room of the placement shape is reached from its
      centre: along the centre's row, then along the cell's column. */
  lemma RoomReached(g: Grid, r: Room, c: GridPoint)
    requires RoomShape(r) && Centred(r) && RoomCarved(g, r) && InRoom(r, c)
    ensures Reaches(g, {}, r.centerCell, c)
  {
    var m := r.centerCell;
    forall d | InRoom(r, d)
      ensures Enterable(g, {}, d)
    {
    }
    ReachesAlongRow(g, {}, m.y, m.x, c.x);
    ReachesAlongColumn(g, {}, c.x, m.y, c.y);
    ReachesTrans(g, {}, m, GridPoint(c.x, m.y), c);
  }

  /** Along the chain of corridors every room centre is reached from the
      first room's centre. */
  lemma {:induction false} CentresReached(g: Grid, rooms: seq<Room>, turns: seq<bool>, k: int)
    requires 0 <= k < |rooms| && |turns| == |rooms| - 1
    requires forall i :: 0 <= i < |rooms| ==> InBounds(rooms[i].centerCell)
    requires Corridors(g, rooms, turns, |rooms|)
    ensures Reaches(g, {}, rooms[0].centerCell, rooms[k].centerCell)
  {
    if k == 0 {
      ReachesSelf(g, {}, rooms[0].centerCell);
    } else {
      var from, to := rooms[k - 1].centerCell, rooms[k].centerCell;
      CentresReached(g, rooms, turns, k - 1);
      assert CorridorCarved(g, from, to, turns[k - 1]);
      CorridorReached(g, from, to, turns[k - 1], to);
      ReachesTrans(g, {}, rooms[0].centerCell, from, to);
    }
  }

  /** Every floor cell is reached from the first room's centre: it lies in a
      room, reached through that room's centre, or on a corridor, reached
      through the corridor's first end. */
  lemma FloorReached(g: Grid, rooms: seq<Room>, turns: seq<bool>, c: GridPoint)
    requires |rooms| > 0 && |turns| == |rooms| - 1
    requires RoomsLaidOut(g, rooms) && Corridors(g, rooms, turns, |rooms|) && FloorExactly(g, rooms, turns)
    requires IsFloor(g, c)
    ensures Reaches(g, {}, rooms[0].centerCell, c)
  {
    forall i | 0 <= i < |rooms|
      ensures InBounds(rooms[i].centerCell)
    {
      assert rooms[i] in rooms;
      CentreInner(rooms[i]);
    }
    if InSomeRoom(rooms, c) {
      var k :| 0 <= k < |rooms| && InRoom(rooms[k], c);
      assert rooms[k] in rooms;
      CentresReached(g, rooms, turns, k);
      RoomReached(g, rooms[k], c);
      ReachesTrans(g, {}, rooms[0].centerCell, rooms[k].centerCell, c);
    } else {
      var k :| 1 <= k < |rooms| && k < |rooms| && k - 1 < |turns| &&
               OnCorridor(rooms[k - 1].centerCell, rooms[k].centerCell, turns[k - 1], c);
      CentresReached(g, rooms, turns, k - 1);
      CorridorReached(g, rooms[k - 1].centerCell, rooms[k].centerCell, turns[k - 1], c);
      ReachesTrans(g, {}, rooms[0].centerCell, rooms[k - 1].centerCell, c);
    }
  }

  /** With every door open, each floor cell reaches every other: the floor is
      one 4-connected region. */
  ghost predicate FloorConnected(g: Grid)
  {
    forall c, d :: IsFloor(g, c) && IsFloor(g, d) ==> Reaches(g, {}, c, d)
  }

  /** Rooms, the corridors between consecutive rooms and nothing else make a
      connected floor. */
  lemma FloorJoined(g: Grid, rooms: seq<Room>, turns: seq<bool>)
    requires |rooms| > 0 && |turns| == |rooms| - 1
    requires RoomsLaidOut(g, rooms) && Corridors(g, rooms, turns, |rooms|) && FloorExactly(g, rooms, turns)
    ensures FloorConnected(g)
  {
    var s := rooms[0].centerCell;
    assert rooms[0] in rooms;
    CentreInner(rooms[0]);
    assert InRoom(rooms[0], s);
    forall c, d | IsFloor(g, c) && IsFloor(g, d)
      ensures Reaches(g, {}, c, d)
    {
      FloorReached(g, rooms, turns, c);
      FloorReached(g, rooms, turns, d);
      ReachesBack(g, {}, s, c);
      ReachesTrans(g, {}, c, s, d);
    }
  }

  /** On a connected floor every room centre reaches every other. */
  lemma CentresJoined(g: Grid, rooms: seq<Room>)
    requires FloorConnected(g) && RoomsLaidOut(g, rooms)
    ensures forall i, j :: 0 <= i < |rooms| && 0 <= j < |rooms| ==>
              Reaches(g, {}, rooms[i].centerCell, rooms[j].centerCell)
  {
    forall i, j | 0 <= i < |rooms| && 0 <= j < |rooms|
      ensures Reaches(g, {}, rooms[i].centerCell, rooms[j].centerCell)
    {
      assert rooms[i] in rooms && rooms[j] in rooms;
      assert InRoom(rooms[i], rooms[i].centerCell) && InRoom(rooms[j], rooms[j].centerCell);
    }
  }

  /** The middle of `generateDungeon`: `rooms.sort` by centre x, the
      corridor loop, and the fallback room when none was placed. */
  method ConnectRooms(a: array2<Cell>, placed: seq<Room>, rng: Rng, ghost n: nat, ghost draws: seq<bv32>)
    returns (rooms: seq<Room>, ghost turns: seq<bool>)
    requires a.Length0 == GridHeight && a.Length1 == GridWidth && rng.Valid()
    requires Layout(Contents(a), placed) && FloorInRooms(Contents(a), placed) && DrawnAt(rng.drawn, n, draws)
    modifies a, rng
    ensures rng.Valid() && rng.seed == old(rng.seed)
    ensures |rooms| == (if |placed| == 0 then 1 else |placed|) && |turns| == |rooms| - 1
    ensures |placed| == 0 ==> rooms == [NewRoom(0, GridWidth / 2 - 3, GridHeight / 2 - 3, 6, 6)]
    ensures |rng.drawn| == |old(rng.drawn)| + |turns| && TurnsDrawn(turns, rng.drawn, |old(rng.drawn)|)
    ensures rng.drawn[..|old(rng.drawn)|] == old(rng.drawn)
    ensures |placed| > 0 ==> rooms == SortBy(placed, CenterX)
    ensures FloorGrows(old(Contents(a)), Contents(a))
    ensures RoomsLaidOut(Contents(a), rooms) && SortedBy(rooms, CenterX)
    ensures Corridors(Contents(a), rooms, turns, |rooms|)
    ensures Connected(Contents(a), placed, rooms, turns, rng.drawn)
    ensures FloorExactly(Contents(a), rooms, turns)
    ensures DrawnAt(rng.drawn, n, draws)
  {
    ghost var drawn := rng.drawn;
    SortedLayout(Contents(a), placed);
    FloorInSorted(Contents(a), placed);
    rooms := SortBy(placed, CenterX);
    forall k | 0 <= k < |rooms|
      ensures Inner(rooms[k].centerCell)
    {
      CentreInner(rooms[k]);
    }
    ghost var before := Contents(a);
    turns := CarveCorridors(a, rooms, rng);
    LaidOutGrows(before, Contents(a), rooms);
    ghost var carved := Contents(a);
    if |rooms| == 0 {
      var room := PlaceFallbackRoom(a);
      FallbackExact(before, carved, Contents(a), room);
      rooms := [room];
    } else {
      ExactFloor(before, carved, rooms, turns);
    }
    DrawnAtKept(rng.drawn, drawn, n, draws);
  }
}
