/** The objective handlers of a level (src/game/level.ts): the key, potion
    and treasure pickups, the lever, the doors, the held item, the fog of war
    and the portal gate. Each handler measures the distance from the camera
    to the world position of an object's mesh; the distances are compared
    squared, so no square root is taken. */
module Objectives {
  import opened State
  import opened Cells = Grid
  import opened Collision
  import opened LevelGen
  import opened Combat

  // ---------------------------------------------------------------------
  // Positions and reach
  // ---------------------------------------------------------------------

  /** The world position of a mesh standing on cell `c` at height `height`. */
  function MeshAt(c: GridPoint, height: real): Vec3
  {
    var w := GridToWorld(c.x, c.y);
    Vec3(w.x, height, w.z)
  }

  /** `a.distanceTo(b) < r` for a non-negative `r`. */
  predicate Closer(a: Vec3, b: Vec3, r: real)
  {
    DistSq(a, b) < r * r
  }

  /** A pickup on cell `c` lies within 1.2 of the camera once heights are
      ignored (`subVectors(...).setY(0).length() < 1.2`). */
  predicate WithinFlat(camera: Vec3, c: GridPoint)
  {
    var w := GridToWorld(c.x, c.y);
    (camera.x - w.x) * (camera.x - w.x) + (camera.z - w.z) * (camera.z - w.z) < 1.2 * 1.2
  }

  /** `Math.min(100, v + amount)`: the cap shared by potions, the medkit and
      the shield. */
  function Replenished(v: real, amount: real): (r: real)
    requires 0.0 <= amount
    ensures r <= 100.0
    ensures v <= 100.0 ==> v <= r
    ensures r == v + amount || r == 100.0
  {
    MinReal(100.0, v + amount)
  }

  /** What the handlers promise about the flags between them: holding the key
      means it was discovered and its mesh is gone, and a lever in the scene
      has not been pulled. */
  predicate ObjectivesConsistent(s: Session)
    reads s, s.levelState
  {
    s.levelState != null ==>
      (s.levelState.hasKey ==> s.levelState.keyDiscovered && !s.hasKeyMesh) &&
      (s.lever.Some? ==> !s.lever.value.isActivated && !s.levelState.leverActivated)
  }

  // ---------------------------------------------------------------------
  // updateKeyPickup
  // ---------------------------------------------------------------------

  /** The key mesh stands over the key cell at height `keyHeight`. It is
      placed at 1.2 and bobbed every frame to `1.2 + sin(time * 0.004) * 0.15`,
      so its height always lies in [1.05, 1.35]. */
  predicate KeyInReach(keyCell: GridPoint, keyHeight: real, camera: Vec3)
  {
    Closer(MeshAt(keyCell, keyHeight), camera, 1.4)
  }

  /** `updateKeyPickup`: with a level, a key mesh, no key yet and a camera,
      a key within 1.4 (in 3D, at the mesh's current height `keyHeight`) is
      taken: the key is held and discovered and its mesh removed. */
  method UpdateKeyPickup(s: Session, keyHeight: real)
    requires 1.05 <= keyHeight <= 1.35
    modifies s`hasKeyMesh, s.levelState
    ensures var ls := s.levelState;
            if ls != null && old(s.hasKeyMesh) && !old(ls.hasKey) && s.camera.Some? &&
               KeyInReach(ls.keyCell, keyHeight, s.camera.value)
            then ls.hasKey && ls.keyDiscovered && !s.hasKeyMesh
            else s.hasKeyMesh == old(s.hasKeyMesh) &&
                 (ls != null ==> ls.hasKey == old(ls.hasKey) && ls.keyDiscovered == old(ls.keyDiscovered))
    ensures s.levelState != null ==>
              s.levelState.discovered == old(s.levelState.discovered) &&
              s.levelState.portalDiscovered == old(s.levelState.portalDiscovered) &&
              s.levelState.leverActivated == old(s.levelState.leverActivated)
    ensures old(ObjectivesConsistent(s)) ==> ObjectivesConsistent(s)
  {
    var ls := s.levelState;
    if ls == null || !s.hasKeyMesh || ls.hasKey || s.camera.None? {
      return;
    }
    if KeyInReach(ls.keyCell, keyHeight, s.camera.value) {
      ls.hasKey := true;
      ls.keyDiscovered := true;
      s.hasKeyMesh := false;
    }
  }

  // ---------------------------------------------------------------------
  // updatePotionPickup
  // ---------------------------------------------------------------------

  datatype Quaffed = Quaffed(kept: seq<Potion>, health: real)

  /** The potions left and the health reached when `ps` is walked from its
      last entry to its first: a potion in reach is drunk, and removed, while
      the health is below 100; one in reach at full health stays. */
  function Drink(ps: seq<Potion>, camera: Vec3, health: real): Quaffed
    decreases |ps|
  {
    if |ps| == 0 then Quaffed([], health)
    else
      var p := ps[|ps| - 1];
      if WithinFlat(camera, p.cell) && health < 100.0 then
        Drink(ps[..|ps| - 1], camera, Replenished(health, 25.0))
      else
        var r := Drink(ps[..|ps| - 1], camera, health);
        Quaffed(r.kept + [p], r.health)
  }

  /** `Drink` on a prefix, with the survivors of the walked suffix behind. */
  function DrinkResume(ps: seq<Potion>, camera: Vec3, health: real, tail: seq<Potion>): Quaffed
  {
    var r := Drink(ps, camera, health);
    Quaffed(r.kept + tail, r.health)
  }

  /** `updatePotionPickup`. */
  method UpdatePotionPickup(s: Session)
    modifies s`health, s`potions
    ensures s.camera.None? ==> s.health == old(s.health) && s.potions == old(s.potions)
    ensures s.camera.Some? ==> Quaffed(s.potions, s.health) == Drink(old(s.potions), s.camera.value, old(s.health))
  {
    if s.camera.None? {
      return;
    }
    var camera := s.camera.value;
    ghost var ps, h0 := s.potions, s.health;
    ghost var tail: seq<Potion> := [];
    var i := |s.potions|;
    assert ps[..i] == ps && Drink(ps, camera, h0).kept + tail == Drink(ps, camera, h0).kept;
    while i > 0
      invariant 0 <= i <= |ps|
      invariant s.potions == ps[..i] + tail
      invariant Drink(ps, camera, h0) == DrinkResume(ps[..i], camera, s.health, tail)
    {
      i := i - 1;
      var potion := s.potions[i];
      assert potion == ps[i];
      assert ps[..i + 1][..i] == ps[..i];
      if WithinFlat(camera, potion.cell) {
        if s.health >= 100.0 {
          tail := [potion] + tail;
          assert s.potions == ps[..i] + tail;
          continue;
        }
        s.health := Replenished(s.health, 25.0);
        s.potions := s.potions[..i] + s.potions[i + 1..];
        assert s.potions == ps[..i] + tail;
      } else {
        tail := [potion] + tail;
        assert s.potions == ps[..i] + tail;
      }
    }
    assert ps[..0] == [];
  }

  /** Drinking stops at full health, adds 25 per potion drunk below it, and
      removes exactly the potions drunk. */
  lemma {:induction false} DrinkHealth(ps: seq<Potion>, camera: Vec3, health: real)
    ensures var r := Drink(ps, camera, health);
            |r.kept| <= |ps| &&
            (health >= 100.0 ==> r == Quaffed(ps, health)) &&
            (health < 100.0 ==> r.health == MinReal(100.0, health + 25.0 * ((|ps| - |r.kept|) as real)))
    decreases |ps|
  {
    if |ps| > 0 {
      var p, pre := ps[|ps| - 1], ps[..|ps| - 1];
      assert pre + [p] == ps;
      if WithinFlat(camera, p.cell) && health < 100.0 {
        DrinkHealth(pre, camera, Replenished(health, 25.0));
      } else {
        DrinkHealth(pre, camera, health);
      }
    }
  }

  /** The survivors keep their order. */
  lemma {:induction false} DrinkOrder(ps: seq<Potion>, camera: Vec3, health: real)
    ensures Subsequence(Drink(ps, camera, health).kept, ps)
    decreases |ps|
  {
    if |ps| > 0 {
      var p, pre := ps[|ps| - 1], ps[..|ps| - 1];
      assert pre + [p] == ps;
      var drunk := WithinFlat(camera, p.cell) && health < 100.0;
      var h' := if drunk then Replenished(health, 25.0) else health;
      DrinkOrder(pre, camera, h');
      SubsequenceExtend(Drink(pre, camera, h').kept, pre, p, !drunk);
    }
  }

  /** Every potion out of reach survives. */
  lemma {:induction false} DrinkKeepsFar(ps: seq<Potion>, camera: Vec3, health: real, k: int)
    requires 0 <= k < |ps| && !WithinFlat(camera, ps[k].cell)
    ensures ps[k] in Drink(ps, camera, health).kept
    decreases |ps|
  {
    var pre := ps[..|ps| - 1];
    if k < |ps| - 1 {
      var drunk := WithinFlat(camera, ps[|ps| - 1].cell) && health < 100.0;
      var h' := if drunk then Replenished(health, 25.0) else health;
      assert pre[k] == ps[k];
      DrinkKeepsFar(pre, camera, h', k);
    }
  }

  /** Below full health, a potion in reach is drunk. */
  lemma {:induction false} DrinkTakesNear(ps: seq<Potion>, camera: Vec3, health: real, k: int)
    requires health < 100.0 && 0 <= k < |ps| && WithinFlat(camera, ps[k].cell)
    ensures |Drink(ps, camera, health).kept| < |ps|
    decreases |ps|
  {
    var pre := ps[..|ps| - 1];
    if !WithinFlat(camera, ps[|ps| - 1].cell) {
      assert pre[k] == ps[k];
      DrinkTakesNear(pre, camera, health, k);
    } else {
      DrinkHealth(pre, camera, Replenished(health, 25.0));
    }
  }

  // ---------------------------------------------------------------------
  // updateTreasurePickup
  // ---------------------------------------------------------------------

  /** The index of the last pickup in reach, -1 if there is none. */
  function LastInReach(ps: seq<TreasurePickup>, camera: Vec3): (j: int)
    ensures -1 <= j < |ps|
    decreases |ps|
  {
    if |ps| == 0 then -1
    else if WithinFlat(camera, ps[|ps| - 1].cell) then |ps| - 1
    else LastInReach(ps[..|ps| - 1], camera)
  }

  /** `LastInReach` is -1 exactly when nothing is in reach, and otherwise the
      highest index in reach. */
  lemma {:induction false} LastInReachSpec(ps: seq<TreasurePickup>, camera: Vec3)
    ensures var j := LastInReach(ps, camera);
            (j == -1 <==> forall k :: 0 <= k < |ps| ==> !WithinFlat(camera, ps[k].cell)) &&
            (j >= 0 ==> WithinFlat(camera, ps[j].cell)) &&
            forall k :: j < k < |ps| ==> !WithinFlat(camera, ps[k].cell)
    decreases |ps|
  {
    if |ps| > 0 && !WithinFlat(camera, ps[|ps| - 1].cell) {
      var pre := ps[..|ps| - 1];
      LastInReachSpec(pre, camera);
      assert forall k :: 0 <= k < |pre| ==> pre[k] == ps[k];
    }
  }

  /** A pickup in reach with none in reach after it is the last in reach. */
  lemma LastInReachAt(ps: seq<TreasurePickup>, camera: Vec3, i: int)
    requires 0 <= i < |ps| && WithinFlat(camera, ps[i].cell)
    requires forall k :: i < k < |ps| ==> !WithinFlat(camera, ps[k].cell)
    ensures LastInReach(ps, camera) == i
  {
    LastInReachSpec(ps, camera);
  }

  /** `updateTreasurePickup`: with empty hands, the last pickup in reach is
      taken into the inventory and removed; any other pickup in reach is left
      because the inventory is then full. */
  method UpdateTreasurePickup(s: Session)
    modifies s`held, s`treasurePickups
    ensures var j := if s.camera.Some? then LastInReach(old(s.treasurePickups), s.camera.value) else -1;
            if old(s.held).None? && j >= 0
            then s.held == Some(old(s.treasurePickups)[j].kind) &&
                 s.treasurePickups == old(s.treasurePickups)[..j] + old(s.treasurePickups)[j + 1..]
            else s.held == old(s.held) && s.treasurePickups == old(s.treasurePickups)
  {
    if s.camera.None? {
      return;
    }
    var camera := s.camera.value;
    ghost var ps := s.treasurePickups;
    ghost var taken := -1;
    var i := |s.treasurePickups|;
    while i > 0
      invariant 0 <= i <= |ps|
      invariant taken == -1 ==> s.held == old(s.held) && s.treasurePickups == ps
      invariant taken == -1 && s.held.None? ==> forall k :: i <= k < |ps| ==> !WithinFlat(camera, ps[k].cell)
      invariant taken != -1 ==> old(s.held).None? && i <= taken < |ps| && s.held == Some(ps[taken].kind) &&
                                s.treasurePickups == ps[..taken] + ps[taken + 1..] &&
                                WithinFlat(camera, ps[taken].cell) &&
                                forall k :: taken < k < |ps| ==> !WithinFlat(camera, ps[k].cell)
    {
      i := i - 1;
      var pickup := s.treasurePickups[i];
      if WithinFlat(camera, pickup.cell) {
        if s.held.Some? {
          continue;
        }
        assert pickup == ps[i];
        s.held := Some(pickup.kind);
        s.treasurePickups := s.treasurePickups[..i] + s.treasurePickups[i + 1..];
        taken := i;
      }
    }
    if taken != -1 {
      LastInReachAt(ps, camera, taken);
    } else if old(s.held).None? {
      LastInReachSpec(ps, camera);
    }
  }

  // ---------------------------------------------------------------------
  // updateLeverInteraction
  // ---------------------------------------------------------------------

  /** The lever mesh stands at height 0.65 on its cell. */
  predicate LeverInReach(lever: Lever, camera: Vec3)
  {
    Closer(MeshAt(lever.cell, 0.65), camera, 1.3)
  }

  /** `updateLeverInteraction`: an unpulled lever within 1.3 activates the
      switch and leaves the scene. */
  method UpdateLeverInteraction(s: Session)
    modifies s`lever, s.levelState
    ensures var ls := s.levelState;
            if ls != null && s.camera.Some? && old(s.lever).Some? && !old(s.lever).value.isActivated &&
               LeverInReach(old(s.lever).value, s.camera.value)
            then ls.leverActivated && s.lever.None?
            else s.lever == old(s.lever) && (ls != null ==> ls.leverActivated == old(ls.leverActivated))
    ensures s.levelState != null ==>
              s.levelState.discovered == old(s.levelState.discovered) &&
              s.levelState.hasKey == old(s.levelState.hasKey) &&
              s.levelState.keyDiscovered == old(s.levelState.keyDiscovered) &&
              s.levelState.portalDiscovered == old(s.levelState.portalDiscovered)
    ensures old(ObjectivesConsistent(s)) ==> ObjectivesConsistent(s)
  {
    var ls := s.levelState;
    if ls == null || s.camera.None? || s.lever.None? || s.lever.value.isActivated {
      return;
    }
    if LeverInReach(s.lever.value, s.camera.value) {
      ls.leverActivated := true;
      s.lever := None;
    }
  }

  // ---------------------------------------------------------------------
  // updateDoorInteractions and removeDoor
  // ---------------------------------------------------------------------

  /** What a handler did to its hint element: left it, hid it, or showed a
      text. */
  datatype Hint = Untouched | Hidden | Shown(text: string)

  /** A door's mesh is centred at half the wall height over its cell. */
  function DoorPosition(d: Door): Vec3
  {
    MeshAt(d.cell, WallHeight / 2.0)
  }

  /** The door is not farther than 2.4 from the camera. */
  predicate DoorInRange(d: Door, camera: Vec3)
  {
    DistSq(DoorPosition(d), camera) <= 2.4 * 2.4
  }

  /** The exit door opens with the key, the treasure door with the switch. */
  predicate DoorUnlocked(d: Door, hasKey: bool, leverActivated: bool)
  {
    if d.kind == ExitDoor then hasKey else leverActivated
  }

  /** An unlocked door in range is removed once it is closer than 1.8. */
  predicate DoorOpens(d: Door, camera: Vec3, hasKey: bool, leverActivated: bool)
  {
    DoorInRange(d, camera) && DoorUnlocked(d, hasKey, leverActivated) && Closer(DoorPosition(d), camera, 1.8)
  }

  /** The doors left standing, in their order. */
  function KeptDoors(ds: seq<Door>, camera: Vec3, hasKey: bool, leverActivated: bool): seq<Door>
    decreases |ds|
  {
    if |ds| == 0 then []
    else (if DoorOpens(ds[0], camera, hasKey, leverActivated) then [] else [ds[0]]) +
         KeptDoors(ds[1..], camera, hasKey, leverActivated)
  }

  function LockedText(kind: DoorKind): string
  {
    if kind == ExitDoor then "Door locked: find the key" else "Door locked: activate the switch"
  }

  /** The hint: the text of the locked door in range that the backward walk
      meets first, which is the one with the highest index, or hidden when
      there is none. */
  function DoorHint(ds: seq<Door>, camera: Vec3, hasKey: bool, leverActivated: bool): Hint
    decreases |ds|
  {
    if |ds| == 0 then Hidden
    else
      var rest := DoorHint(ds[1..], camera, hasKey, leverActivated);
      if rest.Shown? then rest
      else if DoorInRange(ds[0], camera) && !DoorUnlocked(ds[0], hasKey, leverActivated)
      then Shown(LockedText(ds[0].kind))
      else Hidden
  }

  /** `removeDoor(index)`: the door leaves `doors`, and its collider leaves
      `doorColliders` at the same index (a splice past the end removes
      nothing). */
  method RemoveDoor(s: Session, index: int)
    requires 0 <= index < |s.doors|
    modifies s`doors, s`doorColliders
    ensures s.doors == old(s.doors)[..index] + old(s.doors)[index + 1..]
    ensures s.doorColliders == if index < |old(s.doorColliders)|
                               then old(s.doorColliders)[..index] + old(s.doorColliders)[index + 1..]
                               else old(s.doorColliders)
    ensures old(s.DoorsAligned()) ==> s.DoorsAligned()
  {
    s.doors := s.doors[..index] + s.doors[index + 1..];
    if index < |s.doorColliders| {
      s.doorColliders := s.doorColliders[..index] + s.doorColliders[index + 1..];
    }
  }

  /** `updateDoorInteractions`: walking the doors from the last, a locked
      door in range shows its hint, and an unlocked one closer than 1.8 is
      removed; without a locked door in range the hint is hidden. */
  method UpdateDoorInteractions(s: Session) returns (hint: Hint)
    modifies s`doors, s`doorColliders
    ensures s.levelState == null || s.camera.None? ==>
              hint == Untouched && s.doors == old(s.doors) && s.doorColliders == old(s.doorColliders)
    ensures s.levelState != null && s.camera.Some? ==>
              var ls := s.levelState;
              s.doors == KeptDoors(old(s.doors), s.camera.value, ls.hasKey, ls.leverActivated) &&
              hint == DoorHint(old(s.doors), s.camera.value, ls.hasKey, ls.leverActivated)
    ensures old(s.DoorsAligned()) ==> s.DoorsAligned()
  {
    var ls := s.levelState;
    if ls == null || s.camera.None? {
      return Untouched;
    }
    var camera := s.camera.value;
    ghost var ds := s.doors;
    ghost var kept: seq<Door> := [];
    var showHint := false;
    var text := "";
    var i := |s.doors|;
    assert ds[..i] == ds;
    while i > 0
      invariant 0 <= i <= |ds|
      invariant s.doors == ds[..i] + kept
      invariant kept == KeptDoors(ds[i..], camera, ls.hasKey, ls.leverActivated)
      invariant DoorHint(ds[i..], camera, ls.hasKey, ls.leverActivated) ==
                (if showHint then Shown(text) else Hidden)
      invariant old(s.DoorsAligned()) ==> s.DoorsAligned()
    {
      i := i - 1;
      var door := s.doors[i];
      assert door == ds[i];
      assert s.doors == ds[..i] + ([door] + kept);
      WalkDoorsAt(ds, i, camera, ls.hasKey, ls.leverActivated);
      if !DoorInRange(door, camera) {
        kept := [door] + kept;
        continue;
      }
      if !DoorUnlocked(door, ls.hasKey, ls.leverActivated) {
        if !showHint {
          text := LockedText(door.kind);
        }
        showHint := true;
        kept := [door] + kept;
        continue;
      }
      if Closer(DoorPosition(door), camera, 1.8) {
        SpliceAt(ds[..i], door, kept);
        RemoveDoor(s, i);
      } else {
        kept := [door] + kept;
      }
    }
    assert ds[0..] == ds;
    if showHint {
      return Shown(text);
    }
    return Hidden;
  }

  /** Removing the entry between `a` and `b`. */
  lemma SpliceAt<T>(a: seq<T>, x: T, b: seq<T>)
    ensures (a + [x] + b)[..|a|] + (a + [x] + b)[|a| + 1..] == a + b
  {
    var s := a + [x] + b;
    assert s[..|a|] == a;
    assert s[|a| + 1..] == b;
  }

  /** One step of the backward walk over the doors. */
  lemma WalkDoorsAt(ds: seq<Door>, i: int, camera: Vec3, hasKey: bool, leverActivated: bool)
    requires 0 <= i < |ds|
    ensures KeptDoors(ds[i..], camera, hasKey, leverActivated) ==
            (if DoorOpens(ds[i], camera, hasKey, leverActivated) then [] else [ds[i]]) +
            KeptDoors(ds[i + 1..], camera, hasKey, leverActivated)
    ensures var rest := DoorHint(ds[i + 1..], camera, hasKey, leverActivated);
            DoorHint(ds[i..], camera, hasKey, leverActivated) ==
            if rest.Shown? then rest
            else if DoorInRange(ds[i], camera) && !DoorUnlocked(ds[i], hasKey, leverActivated)
            then Shown(LockedText(ds[i].kind))
            else Hidden
  {
    assert ds[i..][0] == ds[i] && ds[i..][1..] == ds[i + 1..];
  }

  /** A door stays exactly when it does not open: locked doors and doors out
      of reach are never removed. */
  lemma {:induction false} KeptDoorsSpec(ds: seq<Door>, camera: Vec3, hasKey: bool, leverActivated: bool, d: Door)
    ensures d in KeptDoors(ds, camera, hasKey, leverActivated) <==>
            d in ds && !DoorOpens(d, camera, hasKey, leverActivated)
    decreases |ds|
  {
    if |ds| > 0 {
      KeptDoorsSpec(ds[1..], camera, hasKey, leverActivated, d);
      assert ds == [ds[0]] + ds[1..];
    }
  }

  /** The hint is hidden exactly when no door in range is locked; a shown
      hint names what a locked door in range waits for. */
  lemma {:induction false} DoorHintSpec(ds: seq<Door>, camera: Vec3, hasKey: bool, leverActivated: bool)
    ensures DoorHint(ds, camera, hasKey, leverActivated).Hidden? <==>
            forall k :: 0 <= k < |ds| ==> !(DoorInRange(ds[k], camera) && !DoorUnlocked(ds[k], hasKey, leverActivated))
    ensures DoorHint(ds, camera, hasKey, leverActivated).Shown? ==>
            exists k :: 0 <= k < |ds| && DoorInRange(ds[k], camera) && !DoorUnlocked(ds[k], hasKey, leverActivated) &&
                        DoorHint(ds, camera, hasKey, leverActivated).text == LockedText(ds[k].kind)
    decreases |ds|
  {
    if |ds| > 0 {
      DoorHintSpec(ds[1..], camera, hasKey, leverActivated);
      assert forall k :: 1 <= k < |ds| ==> ds[k] == ds[1..][k - 1];
      var rest := DoorHint(ds[1..], camera, hasKey, leverActivated);
      if rest.Shown? {
        var k :| 0 <= k < |ds[1..]| && DoorInRange(ds[1..][k], camera) &&
                 !DoorUnlocked(ds[1..][k], hasKey, leverActivated) && rest.text == LockedText(ds[1..][k].kind);
        assert ds[k + 1] == ds[1..][k];
      }
    }
  }

  // ---------------------------------------------------------------------
  // Fog of war: refreshDiscoveryFlags, updateDiscovery, revealTreasureArea
  // ---------------------------------------------------------------------

  /** `refreshDiscoveryFlags`: the key and the portal count as discovered
      once their cells are uncovered; neither flag is ever cleared here. */
  method RefreshDiscoveryFlags(ls: LevelState)
    requires ls.Valid()
    modifies ls`keyDiscovered, ls`portalDiscovered
    ensures ls.keyDiscovered == (old(ls.keyDiscovered) || ls.discovered[ls.keyCell.y, ls.keyCell.x])
    ensures ls.portalDiscovered ==
            (old(ls.portalDiscovered) || ls.discovered[ls.exitRoom.centerCell.y, ls.exitRoom.centerCell.x])
  {
    if ls.discovered[ls.keyCell.y, ls.keyCell.x] {
      ls.keyDiscovered := true;
    }
    if ls.discovered[ls.exitRoom.centerCell.y, ls.exitRoom.centerCell.x] {
      ls.portalDiscovered := true;
    }
  }

  /** Cell (x, y) lies within `radius` cells of `c` on both axes. */
  predicate InWindow(c: GridPoint, radius: int, y: int, x: int)
  {
    c.y - radius <= y <= c.y + radius && c.x - radius <= x <= c.x + radius
  }

  /** `updateDiscovery`: every grid cell within 4 cells of the camera's cell
      on both axes becomes discovered, nothing is covered again, and the
      flags are refreshed. */
  method UpdateDiscovery(s: Session)
    requires s.levelState != null ==> s.levelState.Valid()
    modifies if s.levelState != null then {s.levelState.discovered} else {}
    modifies if s.levelState != null then {s.levelState} else {}
    ensures s.levelState != null ==> s.levelState.discovered == old(s.levelState.discovered) &&
                                     s.levelState.hasKey == old(s.levelState.hasKey) &&
                                     s.levelState.leverActivated == old(s.levelState.leverActivated)
    ensures s.levelState != null && s.camera.None? ==>
              unchanged(s.levelState) && unchanged(s.levelState.discovered)
    ensures s.levelState != null && s.camera.Some? ==>
              var ls, c := s.levelState, WorldToGrid(s.camera.value);
              (forall y, x :: 0 <= y < GridHeight && 0 <= x < GridWidth ==>
                 ls.discovered[y, x] == (old(ls.discovered[y, x]) || InWindow(c, 4, y, x))) &&
              ls.keyDiscovered == (old(ls.keyDiscovered) || ls.discovered[ls.keyCell.y, ls.keyCell.x]) &&
              ls.portalDiscovered ==
                (old(ls.portalDiscovered) || ls.discovered[ls.exitRoom.centerCell.y, ls.exitRoom.centerCell.x])
  {
    var ls := s.levelState;
    if ls == null || s.camera.None? {
      return;
    }
    var cell := WorldToGrid(s.camera.value);
    var d := ls.discovered;
    var y := cell.y - 4;
    while y <= cell.y + 4
      modifies d
      invariant cell.y - 4 <= y <= cell.y + 5
      invariant forall yy, xx :: 0 <= yy < GridHeight && 0 <= xx < GridWidth ==>
                  d[yy, xx] == (old(d[yy, xx]) || (yy < y && InWindow(cell, 4, yy, xx)))
    {
      var x := cell.x - 4;
      while x <= cell.x + 4
        modifies d
        invariant cell.x - 4 <= x <= cell.x + 5
        invariant forall yy, xx :: 0 <= yy < GridHeight && 0 <= xx < GridWidth ==>
                    d[yy, xx] == (old(d[yy, xx]) || ((yy < y || (yy == y && xx < x)) && InWindow(cell, 4, yy, xx)))
      {
        if 0 <= y < GridHeight && 0 <= x < GridWidth {
          d[y, x] := true;
        }
        x := x + 1;
      }
      y := y + 1;
    }
    RefreshDiscoveryFlags(ls);
  }

  /** The scanner uncovers the floor of the treasure room and of the ring
      of cells around it. */
  predicate Scanned(rooms: seq<Room>, g: Grid, y: int, x: int)
    requires WellFormed(g)
  {
    match FirstTagged(rooms, Treasure)
    case None => false
    case Some(r) =>
      r.y - 1 <= y <= r.y + r.h && r.x - 1 <= x <= r.x + r.w &&
      0 <= y < GridHeight && 0 <= x < GridWidth && g[y][x] == Floor
  }

  /** `revealTreasureArea`: without a treasure room nothing changes;
      otherwise the scanned cells become discovered and the flags are
      refreshed. */
  method RevealTreasureArea(ls: LevelState)
    requires ls.Valid()
    modifies ls.discovered, ls`keyDiscovered, ls`portalDiscovered
    ensures FirstTagged(ls.rooms, Treasure).None? ==> unchanged(ls) && unchanged(ls.discovered)
    ensures FirstTagged(ls.rooms, Treasure).Some? ==>
              (forall y, x :: 0 <= y < GridHeight && 0 <= x < GridWidth ==>
                 ls.discovered[y, x] == (old(ls.discovered[y, x]) || Scanned(ls.rooms, ls.grid, y, x))) &&
              ls.keyDiscovered == (old(ls.keyDiscovered) || ls.discovered[ls.keyCell.y, ls.keyCell.x]) &&
              ls.portalDiscovered ==
                (old(ls.portalDiscovered) || ls.discovered[ls.exitRoom.centerCell.y, ls.exitRoom.centerCell.x])
  {
    var found := FirstTagged(ls.rooms, Treasure);
    if found.None? {
      return;
    }
    var room := found.value;
    var minX := MaxInt(0, room.x - 1);
    var maxX := MinInt(GridWidth - 1, room.x + room.w);
    var minY := MaxInt(0, room.y - 1);
    var maxY := MinInt(GridHeight - 1, room.y + room.h);
    var d := ls.discovered;
    var y := minY;
    while y <= maxY
      modifies d
      invariant minY <= y && (minY <= maxY + 1 ==> y <= maxY + 1)
      invariant forall yy, xx :: 0 <= yy < GridHeight && 0 <= xx < GridWidth ==>
                  d[yy, xx] == (old(d[yy, xx]) || (yy < y && Scanned(ls.rooms, ls.grid, yy, xx)))
    {
      var x := minX;
      while x <= maxX
        modifies d
        invariant minX <= x && (minX <= maxX + 1 ==> x <= maxX + 1)
        invariant forall yy, xx :: 0 <= yy < GridHeight && 0 <= xx < GridWidth ==>
                    d[yy, xx] == (old(d[yy, xx]) ||
                                  ((yy < y || (yy == y && xx < x)) && Scanned(ls.rooms, ls.grid, yy, xx)))
      {
        if ls.grid[y][x] == Floor {
          d[y, x] := true;
        }
        x := x + 1;
      }
      y := y + 1;
    }
    RefreshDiscoveryFlags(ls);
  }

  function MinInt(a: int, b: int): int { if a <= b then a else b }
  function MaxInt(a: int, b: int): int { if a >= b then a else b }

  // ---------------------------------------------------------------------
  // useHeldItem
  // ---------------------------------------------------------------------

  /** `useHeldItem`: a medkit heals 40 and a shield charges 40, both capped
      at 100; a scanner reveals the treasure area when there is a level.
      The hands are empty afterwards. */
  method UseHeldItem(s: Session)
    requires s.levelState != null ==> s.levelState.Valid()
    modifies s`health, s`shield, s`held
    modifies if s.levelState != null then {s.levelState, s.levelState.discovered} else {}
    ensures s.held == None
    ensures s.health == (if old(s.held) == Some(Medkit) then Replenished(old(s.health), 40.0) else old(s.health))
    ensures s.shield == (if old(s.held) == Some(Shield) then Replenished(old(s.shield), 40.0) else old(s.shield))
    ensures s.levelState != null && old(s.held) != Some(Scanner) ==>
              unchanged(s.levelState) && unchanged(s.levelState.discovered)
    ensures s.levelState != null && old(s.held) == Some(Scanner) ==>
              var ls := s.levelState;
              ls.discovered == old(ls.discovered) && ls.hasKey == old(ls.hasKey) &&
              ls.leverActivated == old(ls.leverActivated) &&
              forall y, x :: 0 <= y < GridHeight && 0 <= x < GridWidth ==>
                ls.discovered[y, x] == (old(ls.discovered[y, x]) || Scanned(ls.rooms, ls.grid, y, x))
  {
    if s.held.None? {
      return;
    }
    match s.held.value {
      case Medkit =>
        s.health := Replenished(s.health, 40.0);
      case Shield =>
        s.shield := Replenished(s.shield, 40.0);
      case Scanner =>
        if s.levelState != null {
          RevealTreasureArea(s.levelState);
        }
    }
    s.held := None;
  }

  // ---------------------------------------------------------------------
  // checkPortal
  // ---------------------------------------------------------------------

  /** The exit portal stands on the floor at the exit room's centre. */
  function PortalPosition(exit: Room): Vec3
  {
    Vec3(exit.centerX, 0.0, exit.centerZ)
  }

  /** What still bars the portal, in the order the hint lists it. */
  function Missing(remainingEnemies: int, hasKey: bool): (m: seq<string>)
    ensures |m| == 0 <==> remainingEnemies <= 0 && hasKey
    ensures "defeat all enemies" in m <==> remainingEnemies > 0
    ensures "find the key" in m <==> !hasKey
  {
    (if remainingEnemies > 0 then ["defeat all enemies"] else []) + (if !hasKey then ["find the key"] else [])
  }

  /** `parts.join(sep)`. */
  function Join(parts: seq<string>, sep: string): string
    decreases |parts|
  {
    if |parts| == 0 then ""
    else if |parts| == 1 then parts[0]
    else parts[0] + sep + Join(parts[1..], sep)
  }

  /** The portal's verdict at squared distance `distSq`: the hint, and
      whether the level transition starts. */
  function PortalOutcome(remainingEnemies: int, hasKey: bool, distSq: real): (Hint, bool)
  {
    var m := Missing(remainingEnemies, hasKey);
    if distSq < 4.0 * 4.0 && |m| > 0 then (Shown("Portal locked: " + Join(m, " + ")), false)
    else (Hidden, |m| == 0 && distSq < 3.0 * 3.0)
  }

  /** The transition starts exactly when every enemy is down, the key is
      held and the camera is closer than 3; the portal explains itself
      exactly when something is missing and the camera is closer than 4. */
  lemma PortalGate(remainingEnemies: int, hasKey: bool, distSq: real)
    ensures PortalOutcome(remainingEnemies, hasKey, distSq).1 <==>
            remainingEnemies <= 0 && hasKey && distSq < 9.0
    ensures PortalOutcome(remainingEnemies, hasKey, distSq).0.Shown? <==>
            distSq < 16.0 && (remainingEnemies > 0 || !hasKey)
  {
  }

  /** With both conditions open, the hint lists the enemies first. */
  lemma PortalHintText(remainingEnemies: int, hasKey: bool, distSq: real)
    requires remainingEnemies > 0 && !hasKey && distSq < 16.0
    ensures PortalOutcome(remainingEnemies, hasKey, distSq).0 ==
            Shown("Portal locked: " + "defeat all enemies" + " + " + "find the key")
  {
    var m := Missing(remainingEnemies, hasKey);
    assert m == ["defeat all enemies", "find the key"];
    assert m[1..] == ["find the key"];
    assert Join(m[1..], " + ") == "find the key";
    assert Join(m, " + ") == "defeat all enemies" + " + " + "find the key";
  }

  /** `checkPortal`: with a level, a portal, a camera and no transition
      under way, the portal either explains what is missing, or starts the
      transition and releases the controls. */
  method CheckPortal(s: Session) returns (hint: Hint)
    modifies s`levelTransition, s`controlsActive
    ensures s.levelState == null || !s.hasExitPortal || old(s.levelTransition) || s.camera.None? ==>
              hint == Untouched && s.levelTransition == old(s.levelTransition) &&
              s.controlsActive == old(s.controlsActive)
    ensures s.levelState != null && s.hasExitPortal && !old(s.levelTransition) && s.camera.Some? ==>
              var o := PortalOutcome(s.remainingEnemies, s.levelState.hasKey,
                                     DistSq(s.camera.value, PortalPosition(s.levelState.exitRoom)));
              hint == o.0 && s.levelTransition == o.1 &&
              s.controlsActive == (if o.1 then false else old(s.controlsActive))
  {
    var ls := s.levelState;
    if ls == null || !s.hasExitPortal || s.levelTransition || s.camera.None? {
      return Untouched;
    }
    var distSq := DistSq(s.camera.value, PortalPosition(ls.exitRoom));
    var missing: seq<string> := [];
    if s.remainingEnemies > 0 {
      missing := missing + ["defeat all enemies"];
    }
    if !ls.hasKey {
      missing := missing + ["find the key"];
    }
    if distSq < 4.0 * 4.0 && |missing| > 0 {
      return Shown("Portal locked: " + Join(missing, " + "));
    }
    hint := Hidden;
    if |missing| > 0 {
      return;
    }
    if distSq < 3.0 * 3.0 {
      s.levelTransition := true;
      s.controlsActive := false;
    }
  }

  // ---------------------------------------------------------------------
  // Labels and resetGame
  // ---------------------------------------------------------------------

  /** `formatConsumableLabel`: the name the pickup notice shows. */
  function ConsumableLabel(c: Consumable): (r: string)
    ensures |r| > 0 && 'A' <= r[0] <= 'Z'
  {
    match c
    case Medkit => "Medkit"
    case Shield => "Shield"
    case Scanner => "Scanner"
  }

  /** Different consumables never share a label. */
  lemma LabelsDistinct(a: Consumable, b: Consumable)
    ensures ConsumableLabel(a) == ConsumableLabel(b) <==> a == b
  {
  }

  /** `resetGame`, up to the rebuild of the scene: the player's meters, score,
      hands and HUD timers go back to their start values, the combat lists are
      emptied, and a level forgets its key, lever and portal flags and gets a
      fresh fog of war. */
  method ResetGame(s: Session)
    requires s.levelState != null ==> s.levelState.Valid()
    modifies s`health, s`shield, s`score, s`held, s`lastShot, s`hitmarkerTimer, s`damageVignetteTimer
    modifies s`crosshairTimer, s`bullets, s`enemyProjectiles, s`tracers, s`levelTransition, s.levelState
    ensures s.health == 100.0 && s.shield == 0.0 && s.score == 0 && s.held == None
    ensures s.lastShot == 0.0 && s.hitmarkerTimer == 0.0 && s.damageVignetteTimer == 0.0 && s.crosshairTimer == 0.0
    ensures s.bullets == [] && s.enemyProjectiles == [] && s.tracers == []
    ensures s.levelState == null ==> s.levelTransition == old(s.levelTransition)
    ensures s.levelState != null ==>
              var ls := s.levelState;
              ls.Valid() && fresh(ls.discovered) && !s.levelTransition &&
              !ls.hasKey && !ls.keyDiscovered && !ls.portalDiscovered && !ls.leverActivated &&
              forall y, x :: 0 <= y < GridHeight && 0 <= x < GridWidth ==> !ls.discovered[y, x]
    ensures old(ObjectivesConsistent(s)) ==> ObjectivesConsistent(s)
  {
    s.health := 100.0;
    s.shield := 0.0;
    s.score := 0;
    s.held := None;
    s.lastShot := 0.0;
    s.hitmarkerTimer := 0.0;
    s.damageVignetteTimer := 0.0;
    s.crosshairTimer := 0.0;
    ResetCombat(s);
    var ls := s.levelState;
    if ls == null {
      return;
    }
    ResetLevelFlags(ls);
    s.levelTransition := false;
  }

  /** The level part of `resetGame`: flags down and a fresh fog of war. */
  method ResetLevelFlags(ls: LevelState)
    requires ls.Valid()
    modifies ls
    ensures ls.Valid() && fresh(ls.discovered)
    ensures !ls.hasKey && !ls.keyDiscovered && !ls.portalDiscovered && !ls.leverActivated
    ensures forall y, x :: 0 <= y < GridHeight && 0 <= x < GridWidth ==> !ls.discovered[y, x]
  {
    ls.hasKey := false;
    ls.keyDiscovered := false;
    ls.portalDiscovered := false;
    ls.leverActivated := false;
    ls.discovered := CreateDiscoveryGrid();
  }
}
