/** Rubber tiles bounce moving entities back (src/sokoban/rubber.rs; the
    `handle_rubber` of src/sokoban/tile_behaviour.rs is the same system). */
module Rubber {
  import opened Sokoban
  import opened Ecs
  import opened Momentum

  /** One entity's momentum after the rubber check: reversed when the cell
      its saturating step leads to holds rubber. */
  function Bounce(m: Option<Dir>, p: Pos, rubberAt: set<Pos>): Option<Dir> {
    match m
    case None => None
    case Some(d) => if AddDir(p, d) in rubberAt then Some(Opposite(d)) else m
  }

  /** The momentum table after `handle_rubber`. Entities without a position
      are not in the query. */
  function RubberMomentum(m: map<Entity, Option<Dir>>, pos: map<Entity, Pos>, rubberAt: set<Pos>)
    : (r: map<Entity, Option<Dir>>)
    ensures r.Keys == m.Keys
    ensures forall e :: e in m && e in pos && m[e].Some? && AddDir(pos[e], m[e].value) in rubberAt ==>
      r[e] == Some(Opposite(m[e].value))
    ensures forall e :: e in m && (e !in pos || m[e].None? || AddDir(pos[e], m[e].value) !in rubberAt) ==>
      r[e] == m[e]
    ensures forall e :: e in m ==> (r[e].Some? <==> m[e].Some?)
  {
    map e | e in m :: if e in pos then Bounce(m[e], pos[e], rubberAt) else m[e]
  }

  /** At the edge of the coordinate range the step saturates, so the cell
      probed is the entity's own: rubber under an entity moving left at
      x = 0 bounces it right. */
  lemma RubberAtEdgeProbesOwnCell(m: map<Entity, Option<Dir>>, pos: map<Entity, Pos>, rubberAt: set<Pos>, e: Entity)
    requires e in m && e in pos && m[e] == Some(Left) && pos[e].x == 0 && pos[e] in rubberAt
    ensures RubberMomentum(m, pos, rubberAt)[e] == Some(Right)
  {
    assert AddDir(pos[e], Left) == pos[e];
  }

  /** Run before `handle_momentum`, the rubber check makes the emitted move
      carry the bounced direction. */
  lemma BouncedMoveIsEmitted(es: seq<Entity>, m: map<Entity, Option<Dir>>, pos: map<Entity, Pos>,
                             rubberAt: set<Pos>, e: Entity, d: Dir)
    requires e in es && e in m && e in pos && m[e] == Some(d) && AddDir(pos[e], d) in rubberAt
    ensures Move(e, Opposite(d)) in MoveEvents(es, RubberMomentum(m, pos, rubberAt))
    ensures Move(e, d) !in MoveEvents(es, RubberMomentum(m, pos, rubberAt))
  {
    MoveEventIff(es, RubberMomentum(m, pos, rubberAt), e, Opposite(d));
    MoveEventIff(es, RubberMomentum(m, pos, rubberAt), e, d);
  }

  /** The table after the rubber check has visited the entities of `es`
      one by one, in order. */
  function BounceEach(m: map<Entity, Option<Dir>>, es: seq<Entity>, pos: map<Entity, Pos>, rubberAt: set<Pos>)
    : (r: map<Entity, Option<Dir>>)
    ensures r.Keys == m.Keys
  {
    if es == [] then m
    else
      var r, e := BounceEach(m, es[..|es| - 1], pos, rubberAt), es[|es| - 1];
      if e in r && e in pos then r[e := Bounce(r[e], pos[e], rubberAt)] else r
  }

  /** Entity by entity in query order, the rubber check builds the table
      `RubberMomentum` describes: each listed entity is visited once, from
      its original momentum. */
  lemma {:induction false} RubberInQueryOrder(m: map<Entity, Option<Dir>>, es: seq<Entity>, pos: map<Entity, Pos>, rubberAt: set<Pos>)
    requires NoDup(es)
    ensures forall e :: e in m ==>
      BounceEach(m, es, pos, rubberAt)[e] == if e in es && e in pos then Bounce(m[e], pos[e], rubberAt) else m[e]
  {
    if es != [] {
      var init, last := es[..|es| - 1], es[|es| - 1];
      RubberInQueryOrder(m, init, pos, rubberAt);
      assert last !in init;
      assert forall e :: e in es <==> e in init || e == last;
    }
  }

  /** The loop of `handle_rubber` over the query, on the momentum table
      `m`: for each entity in motion, reverse its momentum when rubber lies
      one saturating step ahead. */
  method BounceAll(es: seq<Entity>, pos: map<Entity, Pos>, rubberAt: set<Pos>, m: map<Entity, Option<Dir>>)
    returns (r: map<Entity, Option<Dir>>)
    ensures r == BounceEach(m, es, pos, rubberAt)
  {
    r := m;
    var i := 0;
    while i < |es|
      invariant 0 <= i <= |es|
      invariant r == BounceEach(m, es[..i], pos, rubberAt)
    {
      var e := es[i];
      assert es[..i + 1][..i] == es[..i];
      if e in pos && e in r {
        var mom := r[e];
        if mom.Some? {
          var dest := AddDir(pos[e], mom.value);
          if dest in rubberAt {
            r := r[e := Some(Opposite(mom.value))];
          }
        }
      }
      i := i + 1;
    }
    assert es[..i] == es;
  }

  /** `handle_rubber` on the world. Positions are not touched. */
  method HandleRubber(w: World)
    requires w.Valid()
    modifies w`momentum
    ensures w.Valid()
    ensures w.momentum == RubberMomentum(old(w.momentum), w.pos, TilePositions(w.rubbers, w.pos))
  {
    var rubberAt := TilePositions(w.rubbers, w.pos);
    ghost var m0 := w.momentum;
    w.momentum := BounceAll(w.entities, w.pos, rubberAt, w.momentum);
    RubberInQueryOrder(m0, w.entities, w.pos, rubberAt);
  }
}
