/** The three transitions a command can trigger: taking an object, killing an
    enemy (with the combat-eligibility rule), and moving through an exit. */
module Transitions {
  import opened WorldModel

  // ---------------------------------------------------------------- take

  /** Object `o` is the one `take objectId` asks for in room `room`. */
  predicate Wanted(o: Item, objectId: string, room: string) {
    o.id == objectId && o.initialRoom == room
  }

  /** Some object with this id lies in the player's current room. */
  ghost predicate Takeable(w: World, objectId: string) {
    exists i :: 0 <= i < |w.objects| && Wanted(w.objects[i], objectId, w.currentRoom)
  }

  /** `r` is `w` after taking the object at position `i`, the first wanted
      one: it is erased from the objects, the others keep their order, and it
      is stored in the inventory under the requested id. */
  ghost predicate TookAt(w: World, objectId: string, i: int, r: World) {
    && 0 <= i < |w.objects|
    && Wanted(w.objects[i], objectId, w.currentRoom)
    && (forall j :: 0 <= j < i ==> !Wanted(w.objects[j], objectId, w.currentRoom))
    && r == w.(objects := w.objects[..i] + w.objects[i + 1..],
               inventory := w.inventory[objectId := w.objects[i]])
  }

  /** The `take` command. It fails, changing nothing, unless an object with
      this id lies in the current room. */
  function TakeObject(w: World, objectId: string): (r: World)
    ensures Takeable(w, objectId) <==> exists i :: TookAt(w, objectId, i, r)
    ensures !Takeable(w, objectId) ==> r == w
  {
    match FirstIndex(w.objects, (o: Item) => Wanted(o, objectId, w.currentRoom))
    case None => w
    case Some(i) =>
      var r := w.(objects := RemoveAt(w.objects, i),
                  inventory := w.inventory[objectId := w.objects[i]]);
      assert TookAt(w, objectId, i, r);
      r
  }

  /** Taking never loses an inventory key, only ever removes objects from the
      world, and touches nothing but the objects and the inventory. */
  lemma TakeMonotone(w: World, objectId: string)
    ensures var r := TakeObject(w, objectId);
      && w.inventory.Keys <= r.inventory.Keys
      && multiset(r.objects) <= multiset(w.objects)
      && r == w.(objects := r.objects, inventory := r.inventory)
  {
  }

  /** With unique object ids, a successful take leaves no object with that id
      in the world, so repeating the same take fails and changes nothing. */
  lemma TakeTwiceFails(w: World, objectId: string)
    requires UniqueItemIds(w.objects)
    requires Takeable(w, objectId)
    ensures var r := TakeObject(w, objectId);
      && objectId in r.inventory
      && (forall o :: o in r.objects ==> o.id != objectId)
      && !Takeable(r, objectId)
      && TakeObject(r, objectId) == r
  {
  }

  /** Taking keeps object ids unique. */
  lemma TakeKeepsUniqueIds(w: World, objectId: string)
    requires UniqueItemIds(w.objects)
    ensures UniqueItemIds(TakeObject(w, objectId).objects)
  {
  }

  // ---------------------------------------------------------------- kill

  /** Position `i` holds the first enemy with this id. */
  ghost predicate FirstEnemyAt(enemies: seq<Enemy>, enemyId: string, i: int) {
    && 0 <= i < |enemies|
    && enemies[i].id == enemyId
    && forall j :: 0 <= j < i ==> enemies[j].id != enemyId
  }

  /** The inventory holds every id of `ids` (the `all_of` in canKillEnemy). */
  predicate HoldsAll(inventory: map<string, Item>, ids: seq<string>)
  {
    FirstIndex(ids, (id: string) => id !in inventory).None?
  }

  /** Position `i` holds the first enemy with this id, and the inventory
      holds every object that enemy is killed by. */
  ghost predicate KillableAt(w: World, enemyId: string, i: int) {
    && w.enemies.Some?
    && FirstEnemyAt(w.enemies.value, enemyId, i)
    && forall k :: k in w.enemies.value[i].killedBy ==> k in w.inventory
  }

  /** The combat-eligibility rule: the world has an enemies collection, its
      first enemy with this id exists, and the inventory holds every object
      that enemy is killed by. An empty `killedBy` list always suffices;
      an unknown enemy never can be killed. */
  predicate CanKillEnemy(w: World, enemyId: string): (b: bool)
    ensures b <==> exists i :: KillableAt(w, enemyId, i)
  {
    if w.enemies.None? then false
    else
      var es := w.enemies.value;
      match FirstIndex(es, (e: Enemy) => e.id == enemyId)
      case None => false
      case Some(i) =>
        assert FirstEnemyAt(es, enemyId, i);
        assert forall j :: KillableAt(w, enemyId, j) ==> j == i;
        var b := if |es[i].killedBy| == 0 then true else HoldsAll(w.inventory, es[i].killedBy);
        assert b ==> KillableAt(w, enemyId, i);
        b
  }

  /** The `kill` command. The enemy is looked up among all enemies of the
      world, not only those of the current room. Looking the collection up
      creates it, empty, when the world has none. */
  function KillEnemy(w: World, enemyId: string): (t: Turn)
    ensures t.outcome == Continue || t.outcome == Lose
    ensures t.outcome == Lose <==> exists i ::
      && FirstEnemyAt(EnemiesOf(w), enemyId, i)
      && !(forall k :: k in EnemiesOf(w)[i].killedBy ==> k in w.inventory)
    ensures t.outcome == Lose ==> t.world == w
    ensures (forall j :: 0 <= j < |EnemiesOf(w)| ==> EnemiesOf(w)[j].id != enemyId) ==>
      t.world == w.(enemies := Some(EnemiesOf(w)))
    ensures forall i :: FirstEnemyAt(EnemiesOf(w), enemyId, i) && t.outcome == Continue ==>
      t.world == w.(enemies := Some(EnemiesOf(w)[..i] + EnemiesOf(w)[i + 1..]))
  {
    var es := EnemiesOf(w);
    var w' := w.(enemies := Some(es));
    match FirstIndex(es, (e: Enemy) => e.id == enemyId)
    case None => Turn(w', Continue)
    case Some(i) =>
      assert FirstEnemyAt(es, enemyId, i);
      if CanKillEnemy(w', enemyId) then Turn(w.(enemies := Some(RemoveAt(es, i))), Continue)
      else Turn(w, Lose)
  }

  /** Killing only ever removes enemies, and touches nothing but the
      enemies collection. */
  lemma KillMonotone(w: World, enemyId: string)
    ensures var t := KillEnemy(w, enemyId);
      && multiset(EnemiesOf(t.world)) <= multiset(EnemiesOf(w))
      && t.world == w.(enemies := t.world.enemies)
  {
  }

  /** With unique enemy ids, a successful kill removes the enemy for good:
      a second `kill` of the same id finds nothing and changes nothing. */
  lemma KillTwiceFindsNothing(w: World, enemyId: string)
    requires UniqueEnemyIds(EnemiesOf(w))
    requires KillEnemy(w, enemyId).outcome == Continue
    ensures var w1 := KillEnemy(w, enemyId).world;
      && (forall e :: e in EnemiesOf(w1) ==> e.id != enemyId)
      && KillEnemy(w1, enemyId) == Turn(w1, Continue)
  {
  }

  /** Killing keeps enemy ids unique. */
  lemma KillKeepsUniqueIds(w: World, enemyId: string)
    requires UniqueEnemyIds(EnemiesOf(w))
    ensures UniqueEnemyIds(EnemiesOf(KillEnemy(w, enemyId).world))
  {
  }

  // ---------------------------------------------------------------- move

  /** Some enemy of the player's current room has positive aggressiveness.
      Enemies of other rooms are not consulted. */
  ghost predicate Blocked(w: World) {
    && w.enemies.Some?
    && exists e :: e in w.enemies.value && e.initialRoom == w.currentRoom && e.aggressiveness > 0
  }

  /** A move through exit `direction` of `room`, the room the player stands
      in. The aggressive-enemy check comes first, so it kills whatever the
      direction; a room without exits kills too; an unknown direction is
      harmless and leaves the player where they are. */
  function Move(w: World, room: Room, direction: string): (t: Turn)
    ensures t.outcome == Lose <==> Blocked(w) || |room.exits| == 0
    ensures t.outcome == Lose ==> t.world == w
    ensures t.outcome != Lose ==> t.outcome == Continue
    ensures t.outcome != Lose && direction in room.exits ==>
      t.world == w.(currentRoom := room.exits[direction])
    ensures t.outcome != Lose && direction !in room.exits ==> t.world == w
  {
    var aggressive := (e: Enemy) => e.initialRoom == w.currentRoom && e.aggressiveness > 0;
    if w.enemies.Some? && FirstIndex(w.enemies.value, aggressive).Some? then
      Turn(w, Lose)
    else if |room.exits| == 0 then
      Turn(w, Lose)
    else if direction in room.exits then
      Turn(w.(currentRoom := room.exits[direction]), Continue)
    else
      Turn(w, Continue)
  }
}
