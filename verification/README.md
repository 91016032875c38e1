# Text adventure world-state machine, in Dafny

This project models the core of a single-player text adventure interpreter
(`TextBasedAdventure.cpp`). A loaded world holds:

- rooms, each with exits from a direction label to a room id;
- objects lying in rooms;
- enemies, each with an aggressiveness and a list of objects it is killed by;
- the player's inventory and current room;
- one objective: kill these enemies, reach one of these rooms, or collect these items.

Each turn of the game loop does four things. It resolves the current room, and
a missing room is a fatal error. It classifies the input line as `look`,
`go D` / `door…`, `take X`, `kill X`, or unrecognised. It applies the move,
take or kill transition, and any of these may kill the player. It then checks
the objective against the updated world.

The model is written as pure functions over immutable datatypes:

- `world.dfy` (module `WorldModel`): the records, the `Continue | Win | Lose | Fatal` outcome, and the first-match scan behind every lookup.
- `commands.dfy` (module `Commands`): command classification.
- `transitions.dfy` (module `Transitions`): take, the combat-eligibility rule, kill and move.
- `objectives.dfy` (module `Objectives`): the objective check.
- `game.dfy` (module `Game`): one turn (`Step`) and a whole session (`Play`).
- `scenarios.dfy` (module `Scenarios`): concrete sessions.

The C++ code ends the process with a failure status on death or a missing
room, and leaves the loop on a win. The model returns these as `Lose`, `Fatal`
and `Win` instead. When a turn ends in `Lose` or `Fatal`, the model returns the
world as it stood before the turn.

Behaviour modelled as the code has it:

- The aggressive-enemy check on a move looks only at enemies whose
  `initialroom` is the current room (`TextBasedAdventure.cpp:183-185`). The
  model follows the code; `Scenarios.AggressiveEnemyElsewhereIsHarmless`
  shows that an aggressive enemy in another room does not block a move.
- The aggressive-enemy check runs before the exits are examined, so an
  unknown direction still kills the player when an aggressive enemy is present.
- The kill objective walks its target list and stops at the first target
  still alive. `Objectives.NoTargetAlive` proves that this is exactly
  "no remaining enemy carries a target id". The "any enemy matches any
  target" test and the per-target test are the same condition.
- `killEnemy` reaches the enemy list through the non-const `gameData["enemies"]`.
  That inserts a null list when the world has none. From then on the kill
  objective is evaluated, and with no enemies it is met.
  `Game.KillLineCreatesEnemies` proves that in such a world `look` does not
  win but any `kill` line does.
- The current room is resolved at the start of a turn, before the next line
  is read (`TextBasedAdventure.cpp:159-174`). A move to an exit whose target
  is not a room still runs that turn's objective check; the session is then
  `Fatal` before any further line is consumed, even when none is left.
- `takeObject` compares an object's room with the id of the looked-up room
  record. That record's id equals the current room id, so the model uses the
  current room id.

## Model

| member | source | states |
|---|---|---|
| WorldModel.FindRoom | TextBasedAdventure.cpp:159-170 | The room found is the first room of the map whose id is the current room id; no room is found exactly when no room has that id |
| Commands.Parse | TextBasedAdventure.cpp:175-216 | The line is `look` iff the command is Look. A `door…` line is always a move whose direction is the whole line. A move is otherwise `go ` plus its direction, a take is `take ` plus its id, a kill is `kill ` plus its id. A line is unrecognised iff it is not `look` and carries none of the four prefixes |
| Commands.ParseRender | TextBasedAdventure.cpp:175-216 | Each recognised command, spelled `look`, `go D`, `take X` or `kill X`, is classified back as that same command, so the fixed test order never captures another command's line |
| Commands.RenderParse | TextBasedAdventure.cpp:175-216 | Every recognised line that is not a `door…` move is exactly the keyword followed by the argument the classifier extracts, so nothing of the line is lost |
| Transitions.TakeObject | TextBasedAdventure.cpp:66-82 | Take succeeds iff an object with that id lies in the current room. On success the first such object is erased, the others keep their order, and it is stored in the inventory under the id. On failure the world is unchanged |
| Transitions.TakeMonotone | TextBasedAdventure.cpp:72-74 | Taking never removes an inventory key, only removes objects from the world, and changes nothing besides objects and inventory |
| Transitions.TakeTwiceFails | TextBasedAdventure.cpp:69-74 | With unique object ids, after a successful take the id is in the inventory, no object of the world carries it, and repeating the take fails and changes nothing |
| Transitions.TakeKeepsUniqueIds | TextBasedAdventure.cpp:74 | Taking preserves uniqueness of object ids |
| Transitions.CanKillEnemy | TextBasedAdventure.cpp:84-110 | An enemy can be killed iff the world has enemies, the first enemy with that id exists, and every id in its killed-by list is an inventory key; an unknown enemy cannot be killed |
| Transitions.KillEnemy | TextBasedAdventure.cpp:112-145 | The enemy is looked up among all enemies. Unknown id: nothing changes except that a missing enemy list becomes empty. Killable: exactly the first matching enemy is removed and the others keep their order. Otherwise the outcome is Lose |
| Transitions.KillMonotone | TextBasedAdventure.cpp:122-128 | Killing only removes enemies and changes nothing besides the enemy list |
| Transitions.KillTwiceFindsNothing | TextBasedAdventure.cpp:116-127 | With unique enemy ids, after a successful kill no enemy carries the id, and a second kill of it is a harmless miss |
| Transitions.KillKeepsUniqueIds | TextBasedAdventure.cpp:127 | Killing preserves uniqueness of enemy ids, so the premise of a repeated kill carries from turn to turn |
| Transitions.Move | TextBasedAdventure.cpp:177-207 | A move is Lose iff an aggressive enemy is in the current room or the room has no exits. Otherwise a known direction sets the position to the exit's target, and an unknown one leaves the world unchanged |
| Objectives.NoTargetAlive | TextBasedAdventure.cpp:222-237 | The target loop with its early exit is true iff no remaining enemy's id is any target id |
| Objectives.AllCollected | TextBasedAdventure.cpp:253-257 | The collect test is true iff every required id is an inventory key, so an empty list is met |
| Objectives.Achieved | TextBasedAdventure.cpp:218-263 | Kill is met iff an enemy list exists and no enemy's id is a target. Room is met iff the current room is listed. Collect is met iff every listed id is held. Any other objective kind never wins |
| Game.Apply | TextBasedAdventure.cpp:175-216 | A transition only continues or loses, and a loss leaves the world unchanged and comes from a move or a kill. `look` and unrecognised lines change nothing, and only a move changes the position. No transition changes the map or the objective, loses an inventory key, or brings back an object or an enemy |
| Game.Step | TextBasedAdventure.cpp:158-263 | Fatal iff the current room is not on the map. Lose only from a move or kill, and then the world is unchanged. Otherwise Win iff the updated world meets the objective. Only a move changes the position; look and unrecognised lines change nothing. Rooms and objective never change, inventory keys are never lost, objects and enemies only leave |
| Game.Play | TextBasedAdventure.cpp:158-265 | The current room is resolved before each line is read: a session in a world whose current room is missing is Fatal at once, even with no line left. A Fatal session ends in a position no room carries, a session that runs out of lines ends in a room of the map, and a death needs at least one line |
| Game.SessionKeepsMapAndInventory | TextBasedAdventure.cpp:158-265 | Over a whole session the rooms and the objective are unchanged and inventory keys only accumulate |
| Game.SessionOnlyRemoves | TextBasedAdventure.cpp:158-265 | Over a whole session, objects taken and enemies killed never reappear |
| Game.SessionOutcome | TextBasedAdventure.cpp:218-263 | A session that wins ends in a world meeting the objective; one that runs out of lines after at least one turn ends in a world that does not |
| Game.LookChangesNothing | TextBasedAdventure.cpp:175-176 | `look` leaves the world unchanged and wins iff the objective already holds in a world whose current room exists |
| Game.MoveTurn | TextBasedAdventure.cpp:177-207 | A move turn in an existing room loses iff an enemy of the room is aggressive or the room has no exits; otherwise it moves through a known exit or leaves the world unchanged |
| Game.TakeTurn | TextBasedAdventure.cpp:208-210 | A `take` line in an existing room leaves exactly the world the take transition produces, and never loses |
| Game.KillTurn | TextBasedAdventure.cpp:211-213 | A `kill` line in an existing room is lost iff the kill transition loses, and leaves the world the kill transition produces |
| Game.MissingTargetIsFatalNextTurn | TextBasedAdventure.cpp:159-170 | A turn that continues in a position no room carries was a move, and the next turn is Fatal whatever its line |
| Game.KillLineCreatesEnemies | TextBasedAdventure.cpp:113-143 | In a world without an enemy list and with a kill objective, `look` does not win but any `kill` line does, because the lookup creates an empty enemy list |
| Game.PlayAppend | TextBasedAdventure.cpp:158-265 | A session on `xs + ys` plays `xs`, then continues with `ys` from the resulting world only if the game is still running |
| Scenarios.WalkToHallWins | TextBasedAdventure.cpp:66-82 | From `start`, `take key` then `go north` puts the key in the inventory and wins in `hall` on the second turn |
| Scenarios.DeadEndKills | TextBasedAdventure.cpp:192-206 | A move from a room with empty exits is Lose |
| Scenarios.RequirementsAreConjunctive | TextBasedAdventure.cpp:96-106 | An enemy killed by A and B cannot be killed holding only A, and can be killed holding both |
| Scenarios.AggressiveEnemyElsewhereIsHarmless | TextBasedAdventure.cpp:180-190 | An aggressive enemy in another room does not stop a move out of the current room |

## Left out

- `loadMapData` and the argument-count check (`TextBasedAdventure.cpp:9-19`, `148-153`): these are file I/O and JSON parsing. The model takes a well-formed world record as input.
- `displayRoom` (`TextBasedAdventure.cpp:22-63`) and every console message, including the requirement trace in `canKillEnemy`, the inventory listing on death and the "all enemies defeated" note: these only produce output.
- Reading a line from standard input: a turn takes the line as a parameter, and a session takes the sequence of lines.
- JSON dynamic typing. Exits that are non-empty but not an object (`TextBasedAdventure.cpp:193`) are not representable, because exits are a map. Ids, exit targets and objective targets are strings. Aggressiveness is an integer.
- Process exit codes: they are represented by the `Lose`, `Fatal` and `Win` outcomes.
