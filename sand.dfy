/** Sand stops entities (src/sokoban/sand.rs, the older system that checks
    every entity with momentum). */
module Sand {
  import opened Sokoban
  import opened Ecs

  /** Entity `e` is looked at by the pass and stands on sand. */
  predicate Stops(e: Entity, pos: map<Entity, Pos>, sandAt: set<Pos>, eligible: set<Entity>) {
    e in eligible && e in pos && pos[e] in sandAt
  }

  /** The momentum table after a sand pass that looks at the entities in
      `eligible`: those standing on sand lose their momentum. */
  function SandStop(m: map<Entity, Option<Dir>>, pos: map<Entity, Pos>, sandAt: set<Pos>, eligible: set<Entity>)
    : (r: map<Entity, Option<Dir>>)
    ensures r.Keys == m.Keys
    ensures forall e :: e in m ==> (r[e] == None <==> m[e] == None || Stops(e, pos, sandAt, eligible))
    ensures forall e :: e in m && r[e] != None ==> r[e] == m[e]
  {
    map e | e in m :: if Stops(e, pos, sandAt, eligible) then None else m[e]
  }

  /** A second sand pass over the same positions changes nothing. */
  lemma SandStopIdempotent(m: map<Entity, Option<Dir>>, pos: map<Entity, Pos>, sandAt: set<Pos>, eligible: set<Entity>)
    ensures SandStop(SandStop(m, pos, sandAt, eligible), pos, sandAt, eligible) == SandStop(m, pos, sandAt, eligible)
  {
  }

  /** The table after a sand pass has visited the entities of `es` one by
      one, in order. */
  function StopEach(m: map<Entity, Option<Dir>>, es: seq<Entity>, pos: map<Entity, Pos>, sandAt: set<Pos>,
                    eligible: set<Entity>): (r: map<Entity, Option<Dir>>)
    ensures r.Keys == m.Keys
  {
    if es == [] then m
    else
      var r, e := StopEach(m, es[..|es| - 1], pos, sandAt, eligible), es[|es| - 1];
      if e in r && Stops(e, pos, sandAt, eligible) then r[e := None] else r
  }

  /** Entity by entity in query order, a sand pass builds the table
      `SandStop` describes for the entities it visits. */
  lemma {:induction false} SandInQueryOrder(m: map<Entity, Option<Dir>>, es: seq<Entity>, pos: map<Entity, Pos>,
                                            sandAt: set<Pos>, eligible: set<Entity>)
    ensures forall e :: e in m ==>
      StopEach(m, es, pos, sandAt, eligible)[e] == if e in es && Stops(e, pos, sandAt, eligible) then None else m[e]
  {
    if es != [] {
      SandInQueryOrder(m, es[..|es| - 1], pos, sandAt, eligible);
      assert forall e :: e in es <==> e in es[..|es| - 1] || e == es[|es| - 1];
    }
  }

  /** The loop of a sand pass over the query, on the momentum table `m`:
      each eligible entity standing on sand has its momentum taken. */
  method StopAll(es: seq<Entity>, pos: map<Entity, Pos>, sandAt: set<Pos>, eligible: set<Entity>,
                 m: map<Entity, Option<Dir>>) returns (r: map<Entity, Option<Dir>>)
    ensures r == StopEach(m, es, pos, sandAt, eligible)
  {
    r := m;
    var i := 0;
    while i < |es|
      invariant 0 <= i <= |es|
      invariant r == StopEach(m, es[..i], pos, sandAt, eligible)
    {
      var e := es[i];
      assert es[..i + 1][..i] == es[..i];
      if e in eligible && e in pos && e in r && pos[e] in sandAt {
        r := r[e := None];
      }
      i := i + 1;
    }
    assert es[..i] == es;
  }

  /** `apply_sand`: every entity with momentum, the player included and
      whether or not it moved, stops when its position is a sand position. */
  method ApplySand(w: World)
    requires w.Valid()
    modifies w`momentum
    ensures w.Valid()
    ensures w.momentum == SandStop(old(w.momentum), w.pos, TilePositions(w.sands, w.pos), old(w.momentum).Keys)
  {
    var sandAt := TilePositions(w.sands, w.pos);
    ghost var m0 := w.momentum;
    w.momentum := StopAll(w.entities, w.pos, sandAt, w.momentum.Keys, w.momentum);
    SandInQueryOrder(m0, w.entities, w.pos, sandAt, m0.Keys);
  }
}
