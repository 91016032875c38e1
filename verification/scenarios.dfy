/** Small worlds that pin the model down on concrete sessions: the winning
    walk to a target room, death in a dead end, the all-or-nothing
    requirement of combat, and an aggressive enemy elsewhere on the map. */
module Scenarios {
  import opened WorldModel
  import opened Commands
  import opened Transitions
  import opened Objectives
  import opened Game

  const Key := Item("key", "a rusty key", "start")

  /** Room `start` leads north to `hall`; the key lies in `start`; the
      objective is to reach `hall`. */
  function WalkWorld(): World {
    World([Room("start", "the start", map["north" := "hall"]), Room("hall", "a hall", map[])],
          [Key], None, map[], "start", ReachRoom(["hall"]))
  }

  /** `WalkWorld` once the key has been taken. */
  function KeyTaken(): World {
    WalkWorld().(objects := [], inventory := map["key" := Key])
  }

  /** In `start`, `take key` moves the key into the inventory; the game goes on. */
  lemma TakeKeyTurn()
    ensures Step(WalkWorld(), "take key") == Turn(KeyTaken(), Continue)
  {
    var w := WalkWorld();
    assert Parse("take key") == Take("key") by {
      ParseRender(Take("key"));
      assert "take " + "key" == "take key";
    }
    assert FirstRoomAt(w.rooms, "start", 0);
  }

  /** Holding the key in `start`, `go north` reaches `hall` and wins. */
  lemma GoNorthTurn()
    ensures Step(KeyTaken(), "go north") == Turn(KeyTaken().(currentRoom := "hall"), Win)
  {
    var w := KeyTaken();
    assert Parse("go north") == Go("north") by {
      ParseRender(Go("north"));
      assert "go " + "north" == "go north";
    }
    assert FirstRoomAt(w.rooms, "start", 0);
  }

  /** `take key` then `go north`: the key moves to the inventory on the first
      turn and the second turn wins in `hall`. */
  lemma WalkToHallWins()
    ensures Play(WalkWorld(), ["take key", "go north"]) ==
      Turn(WalkWorld().(objects := [], inventory := map["key" := Key], currentRoom := "hall"), Win)
  {
    TakeKeyTurn();
    GoNorthTurn();
    var lines := ["take key", "go north"];
    assert lines[1..] == ["go north"];
    assert FirstRoomAt(WalkWorld().rooms, "start", 0);
    assert FirstRoomAt(KeyTaken().rooms, "start", 0);
    assert Play(KeyTaken(), ["go north"]) == Turn(KeyTaken().(currentRoom := "hall"), Win);
  }

  /** Standing in `cell`, whose exits are empty, any move kills the player. */
  lemma DeadEndKills()
    ensures var w := World([Room("cell", "a cell", map[])], [], None, map[], "cell", ReachRoom(["out"]));
      Step(w, "go out") == Turn(w, Lose)
  {
  }

  /** An enemy killed by `A` and `B` cannot be killed holding `A` alone, and
      can be killed holding both. */
  lemma RequirementsAreConjunctive()
    ensures var troll := Enemy("troll", "a troll", 1, "start", ["A", "B"]);
      var w := World([], [], Some([troll]), map["A" := Item("A", "", "start")], "start", KillTargets(["troll"]));
      && !CanKillEnemy(w, "troll")
      && CanKillEnemy(w.(inventory := w.inventory["B" := Item("B", "", "start")]), "troll")
  {
  }

  /** An aggressive enemy in another room does not stop the player from
      leaving the current one. */
  lemma AggressiveEnemyElsewhereIsHarmless()
    ensures var w := WalkWorld().(enemies := Some([Enemy("ogre", "an ogre", 5, "hall", [])]),
                                  objective := ReachRoom([]));
      Step(w, "go north") == Turn(w.(currentRoom := "hall"), Continue)
  {
  }
}
