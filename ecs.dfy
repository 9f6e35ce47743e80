/** The entity world the systems run against: entity ids in query iteration
    order, one map per component and one set per marker component.
    Bevy's `Query` becomes a loop over `entities`; `Commands::despawn`
    becomes `World.Despawn`. */
module Ecs {
  import opened Sokoban

  type Entity = nat

  /** No entity is listed twice. */
  predicate NoDup(s: seq<Entity>) {
    forall i, j :: 0 <= i < j < |s| ==> s[i] != s[j]
  }

  /** The entities of `s` not in `doomed`, in the same order. */
  function Without(s: seq<Entity>, doomed: set<Entity>): (r: seq<Entity>)
    ensures forall e :: e in r <==> e in s && e !in doomed
    ensures |r| <= |s|
    ensures NoDup(s) ==> NoDup(r)
  {
    if s == [] then []
    else
      var rest := Without(s[..|s| - 1], doomed);
      if s[|s| - 1] in doomed then rest else rest + [s[|s| - 1]]
  }

  /** Filtering works part by part, so the survivors keep their relative
      order. */
  lemma {:induction false} WithoutAppend(a: seq<Entity>, b: seq<Entity>, doomed: set<Entity>)
    ensures Without(a + b, doomed) == Without(a, doomed) + Without(b, doomed)
  {
    if b == [] {
      assert a + b == a;
    } else {
      var init := b[..|b| - 1];
      var last := b[|b| - 1];
      WithoutAppend(a, init, doomed);
      assert (a + b)[..|a + b| - 1] == a + init && (a + b)[|a + b| - 1] == last;
      var kept := if last in doomed then [] else [last];
      assert Without(a + b, doomed) == Without(a + init, doomed) + kept;
      assert Without(b, doomed) == Without(init, doomed) + kept;
    }
  }

  /** The set of entities listed in `s`. */
  function Members(s: seq<Entity>): (r: set<Entity>)
    ensures forall e :: e in r <==> e in s
  {
    set e | e in s
  }

  /** The positions of the entities carrying a marker: what
      `Query<&Pos, With<Marker>>` yields. */
  function TilePositions(marked: set<Entity>, pos: map<Entity, Pos>): (r: set<Pos>)
    ensures forall p :: p in r <==> exists e :: e in marked && e in pos && pos[e] == p
  {
    set e | e in marked && e in pos :: pos[e]
  }

  /** The entities of `es` that `Query<&Pos, With<Marker>>` matches. */
  function Matched(es: seq<Entity>, pos: map<Entity, Pos>, marked: set<Entity>): (r: set<Entity>)
    ensures forall e :: e in r <==> e in es && e in marked && e in pos
  {
    set e | e in es && e in marked && e in pos
  }

  /** The positions `Query<&Pos, With<Marker>>` yields, in iteration order:
      one per matched entity. */
  function QueryPositions(es: seq<Entity>, pos: map<Entity, Pos>, marked: set<Entity>): (r: seq<Pos>)
    ensures |r| <= |es|
    ensures forall p :: p in r <==> exists e :: e in es && e in marked && e in pos && pos[e] == p
    ensures NoDup(es) ==> |r| == |Matched(es, pos, marked)|
  {
    if es == [] then []
    else
      var init, e := es[..|es| - 1], es[|es| - 1];
      MatchedSnoc(es, pos, marked);
      QueryPositions(init, pos, marked) + (if e in marked && e in pos then [pos[e]] else [])
  }

  /** Matching the last entity of a list adds at most that entity, and with
      unique ids adds one more exactly when it matches. */
  lemma MatchedSnoc(es: seq<Entity>, pos: map<Entity, Pos>, marked: set<Entity>)
    requires es != []
    ensures var init, e := es[..|es| - 1], es[|es| - 1];
      && Matched(es, pos, marked) == Matched(init, pos, marked) + (if e in marked && e in pos then {e} else {})
      && (NoDup(es) ==> NoDup(init) && e !in Matched(init, pos, marked))
  {
    var init, e := es[..|es| - 1], es[|es| - 1];
    assert es == init + [e];
  }

  /** Components of surviving entities still belong to live entities. */
  lemma StillOwned(es: seq<Entity>, doomed: set<Entity>, owners: set<Entity>)
    requires owners <= Members(es)
    ensures owners - doomed <= Members(Without(es, doomed))
  {
  }

  class World {
    var entities: seq<Entity>
    var pos: map<Entity, Pos>
    var momentum: map<Entity, Option<Dir>>
    var block: map<Entity, Block>
    var balls: set<Entity>
    var goals: set<Entity>
    var sands: set<Entity>
    var rubbers: set<Entity>
    var voids: set<Entity>
    var players: set<Entity>
    /** `DependOnState<GameState>`. */
    var dependOn: map<Entity, GameState>

    /** Every component belongs to a live entity, and ids are unique. */
    ghost predicate Valid()
      reads this
    {
      var live := Members(entities);
      && NoDup(entities)
      && pos.Keys <= live && momentum.Keys <= live && block.Keys <= live && dependOn.Keys <= live
      && balls <= live && goals <= live && sands <= live
      && rubbers <= live && voids <= live && players <= live
    }

    /** Removes the doomed entities with all their components. */
    method Despawn(doomed: set<Entity>)
      requires Valid()
      modifies this
      ensures Valid()
      ensures entities == Without(old(entities), doomed)
      ensures pos == old(pos) - doomed && momentum == old(momentum) - doomed
      ensures block == old(block) - doomed && dependOn == old(dependOn) - doomed
      ensures balls == old(balls) - doomed && goals == old(goals) - doomed
      ensures sands == old(sands) - doomed && rubbers == old(rubbers) - doomed
      ensures voids == old(voids) - doomed && players == old(players) - doomed
    {
      var kept := Without(entities, doomed);
      StillOwned(entities, doomed, pos.Keys);
      StillOwned(entities, doomed, momentum.Keys);
      StillOwned(entities, doomed, block.Keys);
      StillOwned(entities, doomed, dependOn.Keys);
      StillOwned(entities, doomed, balls);
      StillOwned(entities, doomed, goals);
      StillOwned(entities, doomed, sands);
      StillOwned(entities, doomed, rubbers);
      StillOwned(entities, doomed, voids);
      StillOwned(entities, doomed, players);
      entities, pos, momentum, block, dependOn :=
        kept, pos - doomed, momentum - doomed, block - doomed, dependOn - doomed;
      balls, goals, sands, rubbers, voids, players :=
        balls - doomed, goals - doomed, sands - doomed, rubbers - doomed, voids - doomed, players - doomed;
    }
  }
}
