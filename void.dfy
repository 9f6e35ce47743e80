/** Void tiles swallow entities (src/sokoban/void.rs, the older system that
    checks every non-void entity). */
module Void {
  import opened Sokoban
  import opened Ecs

  /** The entities a void pass looking at `eligible` despawns: every
      non-void entity of the query standing on a void position. */
  function VoidVictims(es: seq<Entity>, pos: map<Entity, Pos>, voids: set<Entity>, eligible: set<Entity>)
    : (r: set<Entity>)
    ensures forall e :: e in r ==> e in es && e in eligible && e !in voids
    ensures forall e :: e in es && e in eligible && e !in voids && e in pos ==>
      (e in r <==> pos[e] in TilePositions(voids, pos))
    ensures forall e :: e in r ==> e in pos
  {
    set e | e in es && e in eligible && e !in voids && e in pos && pos[e] in TilePositions(voids, pos)
  }

  /** Despawning the victims leaves the void positions as they were, so a
      second pass finds nothing more to despawn. */
  lemma {:induction false} VoidIdempotent(es: seq<Entity>, pos: map<Entity, Pos>, voids: set<Entity>, eligible: set<Entity>)
    ensures var doomed := VoidVictims(es, pos, voids, eligible);
      VoidVictims(Without(es, doomed), pos - doomed, voids - doomed, eligible) == {}
  {
    var doomed := VoidVictims(es, pos, voids, eligible);
    assert voids - doomed == voids;
    assert TilePositions(voids, pos - doomed) == TilePositions(voids, pos) by {
      forall p | p in TilePositions(voids, pos)
        ensures p in TilePositions(voids, pos - doomed)
      {
        var v :| v in voids && v in pos && pos[v] == p;
        assert v !in doomed;
      }
    }
  }

  /** `apply_void`: despawn every non-void entity standing on a void
      position, whether or not it moved. */
  method ApplyVoid(w: World)
    requires w.Valid()
    modifies w
    ensures w.Valid()
    ensures var doomed := VoidVictims(old(w.entities), old(w.pos), old(w.voids), Members(old(w.entities)));
      && w.entities == Without(old(w.entities), doomed)
      && w.pos == old(w.pos) - doomed && w.momentum == old(w.momentum) - doomed
      && w.block == old(w.block) - doomed && w.dependOn == old(w.dependOn) - doomed
      && w.balls == old(w.balls) - doomed && w.goals == old(w.goals) - doomed
      && w.sands == old(w.sands) - doomed && w.rubbers == old(w.rubbers) - doomed
      && w.voids == old(w.voids) && w.players == old(w.players) - doomed
  {
    var voidAt := TilePositions(w.voids, w.pos);
    var doomed: set<Entity> := {};
    var i := 0;
    while i < |w.entities|
      invariant 0 <= i <= |w.entities|
      invariant doomed == VoidVictims(w.entities[..i], w.pos, w.voids, Members(w.entities))
    {
      var e := w.entities[i];
      if e !in w.voids && e in w.pos && w.pos[e] in voidAt {
        doomed := doomed + {e};
      }
      assert w.entities[..i + 1] == w.entities[..i] + [e];
      i := i + 1;
    }
    assert w.entities[..i] == w.entities;
    w.Despawn(doomed);
  }
}
