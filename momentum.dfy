/** Momentum and the move events it emits (src/sokoban/momentum.rs). */
module Momentum {
  import opened Sokoban
  import opened Ecs

  /** `SokobanEvent::Move { entity, direction }`. */
  datatype MoveEvent = Move(entity: Entity, direction: Dir)

  /** The event one entity contributes: one `Move` when its momentum is
      `Some`, nothing otherwise (or when it has no `Momentum`). */
  function EventFor(e: Entity, m: map<Entity, Option<Dir>>): seq<MoveEvent> {
    if e in m && m[e].Some? then [Move(e, m[e].value)] else []
  }

  /** The events `handle_momentum` sends for the entities `es`, in query order. */
  function MoveEvents(es: seq<Entity>, m: map<Entity, Option<Dir>>): seq<MoveEvent> {
    if es == [] then [] else MoveEvents(es[..|es| - 1], m) + EventFor(es[|es| - 1], m)
  }

  /** The entities of `es` whose momentum is `Some`, in query order. */
  function MovingEntities(es: seq<Entity>, m: map<Entity, Option<Dir>>): (r: seq<Entity>)
    ensures forall e :: e in r <==> e in es && e in m && m[e].Some?
  {
    if es == [] then []
    else
      var e := es[|es| - 1];
      MovingEntities(es[..|es| - 1], m) + (if e in m && m[e].Some? then [e] else [])
  }

  /** One event per moving entity, in iteration order, each carrying that
      entity's direction. */
  lemma {:induction false} MoveEventsAreMovingEntities(es: seq<Entity>, m: map<Entity, Option<Dir>>)
    ensures |MoveEvents(es, m)| == |MovingEntities(es, m)|
    ensures forall i :: 0 <= i < |MoveEvents(es, m)| ==>
      var e := MovingEntities(es, m)[i];
      e in m && m[e].Some? && MoveEvents(es, m)[i] == Move(e, m[e].value)
  {
    if es != [] {
      MoveEventsAreMovingEntities(es[..|es| - 1], m);
    }
  }

  /** An entity of the query emits `Move(e, d)` exactly when its momentum is
      `Some(d)`; entities outside the query emit nothing. */
  lemma {:induction false} MoveEventIff(es: seq<Entity>, m: map<Entity, Option<Dir>>, e: Entity, d: Dir)
    ensures Move(e, d) in MoveEvents(es, m) <==> e in es && e in m && m[e] == Some(d)
  {
    if es != [] {
      MoveEventIff(es[..|es| - 1], m, e, d);
      assert es == es[..|es| - 1] + [es[|es| - 1]];
    }
  }

  /** `handle_momentum`: a read-only pass over the query sending one move
      event per entity in motion. */
  method HandleMomentum(w: World) returns (events: seq<MoveEvent>)
    ensures events == MoveEvents(w.entities, w.momentum)
  {
    events := [];
    var i := 0;
    while i < |w.entities|
      invariant 0 <= i <= |w.entities|
      invariant events == MoveEvents(w.entities[..i], w.momentum)
    {
      var e := w.entities[i];
      if e in w.momentum && w.momentum[e].Some? {
        events := events + [Move(e, w.momentum[e].value)];
      }
      assert w.entities[..i + 1][..i] == w.entities[..i];
      i := i + 1;
    }
    assert w.entities[..i] == w.entities;
  }
}
