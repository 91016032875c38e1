/** One turn of the game loop and a whole session. A turn resolves the current
    room, classifies the input line, applies the matching transition, and then
    checks the objective against the updated world. */
module Game {
  import opened WorldModel
  import opened Commands
  import opened Transitions
  import opened Objectives

  /** The transition a command triggers while the player stands in `room`.
      `look` and unrecognised lines change nothing, only a move changes the
      position, only a move or a kill can kill, and no transition changes
      the map or the objective, loses an inventory key, or brings back an
      object or an enemy. */
  function Apply(w: World, room: Room, c: Command): (t: Turn)
    ensures t.outcome == Continue || t.outcome == Lose
    ensures t.outcome == Lose ==> t.world == w && (c.Go? || c.Kill?)
    ensures c.Look? || c.Unrecognised? ==> t.world == w
    ensures t.world.currentRoom != w.currentRoom ==> c.Go?
    ensures t.world.rooms == w.rooms && t.world.objective == w.objective
    ensures w.inventory.Keys <= t.world.inventory.Keys
    ensures multiset(t.world.objects) <= multiset(w.objects)
    ensures multiset(EnemiesOf(t.world)) <= multiset(EnemiesOf(w))
  {
    match c
    case Look => Turn(w, Continue)
    case Go(direction) => Move(w, room, direction)
    case Take(objectId) => TakeMonotone(w, objectId); Turn(TakeObject(w, objectId), Continue)
    case Kill(enemyId) => KillMonotone(w, enemyId); KillEnemy(w, enemyId)
    case Unrecognised => Turn(w, Continue)
  }

  /** One turn on input `line`. A missing current room is fatal before the
      line is looked at; a transition that kills the player ends the turn at
      once; otherwise the turn wins exactly when the updated world meets the
      objective. Only a move changes the position, nothing changes the map or
      the objective, the inventory never loses a key, and objects and enemies
      only ever leave the world. */
  function Step(w: World, line: string): (t: Turn)
    ensures t.outcome == Fatal <==>
      forall j :: 0 <= j < |w.rooms| ==> w.rooms[j].id != w.currentRoom
    ensures t.outcome == Fatal || t.outcome == Lose ==> t.world == w
    ensures t.outcome == Lose ==> Parse(line).Go? || Parse(line).Kill?
    ensures t.outcome == Win || t.outcome == Continue ==> (t.outcome == Win <==> Achieved(t.world))
    ensures Parse(line).Look? || Parse(line).Unrecognised? ==> t.world == w
    ensures t.world.currentRoom != w.currentRoom ==> Parse(line).Go?
    ensures t.world.rooms == w.rooms && t.world.objective == w.objective
    ensures w.inventory.Keys <= t.world.inventory.Keys
    ensures multiset(t.world.objects) <= multiset(w.objects)
    ensures multiset(EnemiesOf(t.world)) <= multiset(EnemiesOf(w))
  {
    match FindRoom(w)
    case None => Turn(w, Fatal)
    case Some(room) =>
      Settle(Apply(w, room, Parse(line)))
  }

  /** The end of a turn whose transition has been applied: a death stands,
      otherwise the objective decides between a win and another turn. */
  function Settle(t: Turn): Turn {
    if t.outcome == Lose then t
    else Turn(t.world, if Achieved(t.world) then Win else Continue)
  }

  /** A session: turns are played on the lines in order until one ends the
      game. The current room is resolved before the next line is read, so a
      missing room is fatal even when no line is left; `Continue` means the
      lines ran out while the player stands in a room of the map. */
  function Play(w: World, lines: seq<string>): (t: Turn)
    ensures FindRoom(w).None? ==> t == Turn(w, Fatal)
    ensures t.outcome == Fatal ==> FindRoom(t.world).None?
    ensures t.outcome == Continue ==> FindRoom(t.world).Some?
    ensures t.outcome == Lose ==> |lines| > 0
    decreases |lines|
  {
    if FindRoom(w).None? then Turn(w, Fatal)
    else if |lines| == 0 then Turn(w, Continue)
    else
      var t := Step(w, lines[0]);
      if t.outcome == Continue then Play(t.world, lines[1..]) else t
  }

  /** A session never changes the map or the objective, and the inventory
      only accumulates keys. */
  lemma {:induction false} SessionKeepsMapAndInventory(w: World, lines: seq<string>)
    ensures var t := Play(w, lines);
      && t.world.rooms == w.rooms && t.world.objective == w.objective
      && w.inventory.Keys <= t.world.inventory.Keys
    decreases |lines|
  {
    if |lines| > 0 {
      var t := Step(w, lines[0]);
      if t.outcome == Continue {
        SessionKeepsMapAndInventory(t.world, lines[1..]);
      }
    }
  }

  /** Objects taken and enemies killed during a session never come back. */
  lemma {:induction false} SessionOnlyRemoves(w: World, lines: seq<string>)
    ensures var t := Play(w, lines);
      && multiset(t.world.objects) <= multiset(w.objects)
      && multiset(EnemiesOf(t.world)) <= multiset(EnemiesOf(w))
    decreases |lines|
  {
    if |lines| > 0 {
      var t := Step(w, lines[0]);
      if t.outcome == Continue {
        SessionOnlyRemoves(t.world, lines[1..]);
      }
    }
  }

  /** A session that wins ends in a world meeting the objective; one that
      runs out of lines after at least one turn ends in a world that does not. */
  lemma {:induction false} SessionOutcome(w: World, lines: seq<string>)
    ensures var t := Play(w, lines);
      && (t.outcome == Win ==> Achieved(t.world))
      && (t.outcome == Continue && |lines| > 0 ==> !Achieved(t.world))
    decreases |lines|
  {
    if |lines| > 0 {
      var t := Step(w, lines[0]);
      if t.outcome == Continue {
        SessionOutcome(t.world, lines[1..]);
      }
    }
  }

  /** `look` never changes the world: the turn is fatal when the current room
      is missing, and otherwise wins exactly when the objective already holds. */
  lemma LookChangesNothing(w: World)
    ensures Step(w, "look").world == w
    ensures FindRoom(w).Some? ==>
      Step(w, "look").outcome == (if Achieved(w) then Win else Continue)
  {
  }

  /** A move line ("go D" or "door…") when the current room exists: the
      player dies if an enemy of the current room is aggressive or the room
      has no exits; otherwise a known direction moves them to the exit's
      target and an unknown one leaves the world as it was. */
  lemma MoveTurn(w: World, line: string)
    requires Parse(line).Go?
    requires FindRoom(w).Some?
    ensures var room := FindRoom(w).value;
      var d := Parse(line).direction;
      var t := Step(w, line);
      && (t.outcome == Lose <==> Blocked(w) || |room.exits| == 0)
      && (t.outcome != Lose && d in room.exits ==> t.world == w.(currentRoom := room.exits[d]))
      && (t.outcome != Lose && d !in room.exits ==> t.world == w)
  {
  }

  /** A `take` line in an existing room performs the take transition, and
      the turn goes on or wins; it never kills. */
  lemma TakeTurn(w: World, line: string)
    requires FindRoom(w).Some? && Parse(line).Take?
    ensures Step(w, line).world == TakeObject(w, Parse(line).objectId)
    ensures Step(w, line).outcome != Lose && Step(w, line).outcome != Fatal
  {
  }

  /** A `kill` line in an existing room performs the kill transition: the
      turn is lost exactly when the kill transition loses, and otherwise it
      leaves the world the kill transition produced. */
  lemma KillTurn(w: World, line: string)
    requires FindRoom(w).Some? && Parse(line).Kill?
    ensures var k := KillEnemy(w, Parse(line).enemyId);
      && (Step(w, line).outcome == Lose <==> k.outcome == Lose)
      && Step(w, line).world == k.world
  {
  }

  /** A move through an exit whose target is not a room of the map is
      not caught on that turn; the next turn, whatever its line, is fatal. */
  lemma MissingTargetIsFatalNextTurn(w: World, line: string, next: string)
    requires Step(w, line).outcome == Continue
    requires forall j :: 0 <= j < |w.rooms| ==> w.rooms[j].id != Step(w, line).world.currentRoom
    ensures Parse(line).Go?
    ensures Step(Step(w, line).world, next) == Turn(Step(w, line).world, Fatal)
  {
  }

  /** A world whose enemies collection is absent cannot meet a kill
      objective by `look`, but any `kill` line creates the empty collection,
      after which no target is alive and the turn wins. */
  lemma KillLineCreatesEnemies(w: World, enemyId: string)
    requires FindRoom(w).Some?
    requires w.enemies.None? && w.objective.KillTargets?
    ensures Step(w, "look").outcome == Continue
    ensures Step(w, "kill " + enemyId).outcome == Win
  {
    LookChangesNothing(w);
    ParseRender(Kill(enemyId));
    assert Parse("kill " + enemyId) == Kill(enemyId);
  }

  /** Sessions compose: playing `xs + ys` plays `xs` and, only when that
      leaves the game running, goes on with `ys` from where `xs` stopped. */
  lemma {:induction false} PlayAppend(w: World, xs: seq<string>, ys: seq<string>)
    ensures var first := Play(w, xs);
      Play(w, xs + ys) == if first.outcome == Continue then Play(first.world, ys) else first
    decreases |xs|
  {
    if |xs| == 0 {
      assert xs + ys == ys;
    } else {
      assert (xs + ys)[0] == xs[0];
      assert (xs + ys)[1..] == xs[1..] + ys;
      var t := Step(w, xs[0]);
      if t.outcome == Continue {
        PlayAppend(t.world, xs[1..], ys);
      }
    }
  }
}
