/** The state of one game of the text adventure: the rooms of the map, the
    objects and enemies still in the world, the player's inventory and
    position, and the single objective that ends the game in a win.

    The loaded JSON document is represented by typed records. A field the
    document may leave out is given the value the code then observes:
    missing `exits` become the empty map, a missing `killedby` the empty list,
    a missing `objects` list the empty sequence. The `enemies` list is the one
    place where absent and empty behave differently, so it is an `Option`. */
module WorldModel {

  datatype Option<T> = None | Some(value: T)

  /** A room; `exits` maps a direction label to the id of the destination room. */
  datatype Room = Room(id: string, desc: string, exits: map<string, string>)

  /** An object of the world, lying in room `initialRoom` until it is taken. */
  datatype Item = Item(id: string, desc: string, initialRoom: string)

  /** An enemy. It blocks every exit of its room while `aggressiveness > 0`,
      and it can be killed only by a player who holds every id of `killedBy`. */
  datatype Enemy = Enemy(id: string, desc: string, aggressiveness: int,
                         initialRoom: string, killedBy: seq<string>)

  /** The objective's `type` tag with its `what` list. A tag other than
      "kill", "room" or "collect" is kept as `OtherObjective` and never wins. */
  datatype Objective =
    | KillTargets(targets: seq<string>)
    | ReachRoom(rooms: seq<string>)
    | CollectItems(items: seq<string>)
    | OtherObjective(kind: string)

  datatype World = World(
    rooms: seq<Room>,
    objects: seq<Item>,
    enemies: Option<seq<Enemy>>,
    inventory: map<string, Item>,
    currentRoom: string,
    objective: Objective)

  /** How a turn ends: the game goes on, the objective is reached, the player
      dies, or the current room is missing from the map. */
  datatype Outcome = Continue | Win | Lose | Fatal

  /** The world after a transition or a turn, with the turn's outcome. */
  datatype Turn = Turn(world: World, outcome: Outcome)

  /** The enemies still in the world; an absent collection has none. */
  function EnemiesOf(w: World): seq<Enemy> {
    if w.enemies.Some? then w.enemies.value else []
  }

  /** The position of the first element of `s` satisfying `p`, the common
      core of the `find_if`, `any_of` and `all_of` scans of the game. */
  function FirstIndex<T>(s: seq<T>, p: T -> bool): (r: Option<nat>)
    ensures r.Some? ==> r.value < |s| && p(s[r.value])
    ensures r.Some? ==> forall j :: 0 <= j < r.value ==> !p(s[j])
    ensures r.None? <==> forall j :: 0 <= j < |s| ==> !p(s[j])
  {
    if |s| == 0 then None
    else if p(s[0]) then Some(0)
    else match FirstIndex(s[1..], p)
      case None => None
      case Some(k) => Some(k + 1)
  }

  /** `s` with its element at position `i` erased, as `vector::erase` does. */
  function RemoveAt<T>(s: seq<T>, i: nat): (r: seq<T>)
    requires i < |s|
    ensures |r| == |s| - 1
    ensures forall j :: 0 <= j < i ==> r[j] == s[j]
    ensures forall j :: i <= j < |r| ==> r[j] == s[j + 1]
    ensures multiset(r) + multiset{s[i]} == multiset(s)
  {
    assert s == s[..i] + [s[i]] + s[i + 1..];
    s[..i] + s[i + 1..]
  }

  /** Position `i` holds the first room of the map with this id. */
  ghost predicate FirstRoomAt(rooms: seq<Room>, id: string, i: int) {
    && 0 <= i < |rooms|
    && rooms[i].id == id
    && forall j :: 0 <= j < i ==> rooms[j].id != id
  }

  /** The room the player stands in: the first room whose id is the current
      room id, or None when the map has no such room. */
  function FindRoom(w: World): (r: Option<Room>)
    ensures r.None? <==> forall j :: 0 <= j < |w.rooms| ==> w.rooms[j].id != w.currentRoom
    ensures r.Some? ==> exists i :: FirstRoomAt(w.rooms, w.currentRoom, i) && w.rooms[i] == r.value
  {
    match FirstIndex(w.rooms, (room: Room) => room.id == w.currentRoom)
    case None => None
    case Some(i) =>
      assert FirstRoomAt(w.rooms, w.currentRoom, i);
      Some(w.rooms[i])
  }

  /** No two objects share an id. */
  ghost predicate UniqueItemIds(objects: seq<Item>) {
    forall i, j :: 0 <= i < j < |objects| ==> objects[i].id != objects[j].id
  }

  /** No two enemies share an id. */
  ghost predicate UniqueEnemyIds(enemies: seq<Enemy>) {
    forall i, j :: 0 <= i < j < |enemies| ==> enemies[i].id != enemies[j].id
  }
}
