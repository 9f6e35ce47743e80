/** State-scoped cleanup (src/sokoban/cleanup.rs). */
module Cleanup {
  import opened Sokoban
  import opened Ecs

  /** The entities tagged `DependOnState(s)` for a state `s` other than
      `next`. */
  function StaleFor(es: seq<Entity>, dependOn: map<Entity, GameState>, next: GameState): (r: set<Entity>)
    ensures forall e :: e in r <==> e in es && e in dependOn && dependOn[e] != next
  {
    set e | e in es && e in dependOn && dependOn[e] != next
  }

  /** After cleaning up for `next`, an entity survives exactly when it is
      untagged or tagged with `next`. */
  lemma {:induction false} CleanupSurvivors(es: seq<Entity>, dependOn: map<Entity, GameState>, next: GameState, e: Entity)
    ensures e in Without(es, StaleFor(es, dependOn, next)) <==> e in es && (e !in dependOn || dependOn[e] == next)
  {
  }

  /** `cleanup_on_state_change`: when a next state is pending, despawn every
      entity tagged with a different state. With none pending, nothing
      happens. */
  method CleanupOnStateChange(w: World, next: Option<GameState>)
    requires w.Valid()
    modifies w
    ensures w.Valid()
    ensures next.None? ==> unchanged(w)
    ensures next.Some? ==>
      var doomed := StaleFor(old(w.entities), old(w.dependOn), next.value);
      && w.entities == Without(old(w.entities), doomed)
      && w.pos == old(w.pos) - doomed && w.momentum == old(w.momentum) - doomed
      && w.block == old(w.block) - doomed && w.dependOn == old(w.dependOn) - doomed
      && w.balls == old(w.balls) - doomed && w.goals == old(w.goals) - doomed
      && w.sands == old(w.sands) - doomed && w.rubbers == old(w.rubbers) - doomed
      && w.voids == old(w.voids) - doomed && w.players == old(w.players) - doomed
  {
    if next.None? {
      return;
    }
    var state := next.value;
    var doomed: set<Entity> := {};
    var i := 0;
    while i < |w.entities|
      invariant 0 <= i <= |w.entities|
      invariant doomed == StaleFor(w.entities[..i], w.dependOn, state)
    {
      var e := w.entities[i];
      if e in w.dependOn && w.dependOn[e] != state {
        doomed := doomed + {e};
      }
      assert w.entities[..i + 1] == w.entities[..i] + [e];
      i := i + 1;
    }
    assert w.entities[..i] == w.entities;
    w.Despawn(doomed);
  }

  /** `cleanup_all_with::<T>`: despawn every entity carrying the component
      `T`; `carrying` is the set of entities that have it. */
  method CleanupAllWith(w: World, carrying: set<Entity>)
    requires w.Valid()
    modifies w
    ensures w.Valid()
    ensures var doomed := carrying * Members(old(w.entities));
      && w.entities == Without(old(w.entities), doomed)
      && w.pos == old(w.pos) - doomed && w.momentum == old(w.momentum) - doomed
      && w.block == old(w.block) - doomed && w.dependOn == old(w.dependOn) - doomed
      && w.balls == old(w.balls) - doomed && w.goals == old(w.goals) - doomed
      && w.sands == old(w.sands) - doomed && w.rubbers == old(w.rubbers) - doomed
      && w.voids == old(w.voids) - doomed && w.players == old(w.players) - doomed
    ensures forall e :: e in w.entities <==> e in old(w.entities) && e !in carrying
  {
    var doomed: set<Entity> := {};
    var i := 0;
    while i < |w.entities|
      invariant 0 <= i <= |w.entities|
      invariant doomed == carrying * Members(w.entities[..i])
    {
      var e := w.entities[i];
      if e in carrying {
        doomed := doomed + {e};
      }
      assert w.entities[..i + 1] == w.entities[..i] + [e];
      i := i + 1;
    }
    assert w.entities[..i] == w.entities;
    w.Despawn(doomed);
  }
}
