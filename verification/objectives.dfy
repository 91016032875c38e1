/** The objective check that closes every turn. Each of the three objective
    kinds has its own test; the kill test runs only when the world has an
    enemies collection at all. */
module Objectives {
  import opened WorldModel

  /** The kill test as the code runs it: walk the target list and stop at the
      first target that some remaining enemy still carries as its id. */
  function NoTargetAlive(enemies: seq<Enemy>, targets: seq<string>): (b: bool)
    ensures b <==> forall k, j :: 0 <= k < |targets| && 0 <= j < |enemies| ==>
      enemies[j].id != targets[k]
  {
    if |targets| == 0 then true
    else if FirstIndex(enemies, (e: Enemy) => e.id == targets[0]).Some? then false
    else NoTargetAlive(enemies, targets[1..])
  }

  /** The collect test: the inventory holds every required id. */
  function AllCollected(inventory: map<string, Item>, items: seq<string>): (b: bool)
    ensures b <==> forall k :: 0 <= k < |items| ==> items[k] in inventory
  {
    FirstIndex(items, (id: string) => id !in inventory).None?
  }

  /** The world satisfies its objective. The three tests run in the code's
      order (kill, room, collect); only the one matching the objective's kind
      can succeed. */
  function Achieved(w: World): (b: bool)
    ensures w.objective.KillTargets? ==>
      (b <==> w.enemies.Some? && forall e :: e in w.enemies.value ==> e.id !in w.objective.targets)
    ensures w.objective.ReachRoom? ==> (b <==> w.currentRoom in w.objective.rooms)
    ensures w.objective.CollectItems? ==>
      (b <==> forall id :: id in w.objective.items ==> id in w.inventory)
    ensures w.objective.OtherObjective? ==> !b
  {
    var killed := w.enemies.Some? && w.objective.KillTargets? &&
                  NoTargetAlive(w.enemies.value, w.objective.targets);
    var reached := w.objective.ReachRoom? && w.currentRoom in w.objective.rooms;
    var collected := w.objective.CollectItems? && AllCollected(w.inventory, w.objective.items);
    killed || reached || collected
  }
}
