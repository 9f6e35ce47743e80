/** Terrain effects and the ball-on-goal win rule, with the order the
    plugin runs them in each frame (src/sokoban/tile_behaviour.rs). */
module TileBehaviour {
  import opened Sokoban
  import opened Ecs
  import opened Momentum
  import opened Rubber
  import opened Sand
  import opened Void

  /** `iter().any(|ball| ball == goal)`. */
  function AnyAt(ps: seq<Pos>, p: Pos): (b: bool)
    ensures b <==> p in ps
  {
    if ps == [] then false else ps[0] == p || AnyAt(ps[1..], p)
  }

  /** `goals.iter().all(|goal| balls.iter().any(|ball| ball == goal))`:
      every goal position is also a ball position. */
  function AllCovered(goalsAt: seq<Pos>, ballsAt: seq<Pos>): (b: bool)
    ensures b <==> forall i :: 0 <= i < |goalsAt| ==> goalsAt[i] in ballsAt
  {
    if goalsAt == [] then true else AnyAt(ballsAt, goalsAt[0]) && AllCovered(goalsAt[1..], ballsAt)
  }

  /** The win condition of `handle_goal` over the world: every goal entity
      has a ball entity on its cell. It holds vacuously with no goals. */
  function GoalsSatisfied(es: seq<Entity>, pos: map<Entity, Pos>, goals: set<Entity>, balls: set<Entity>)
    : (b: bool)
    ensures b <==> forall g :: g in es && g in goals && g in pos ==>
      exists e :: e in es && e in balls && e in pos && pos[e] == pos[g]
  {
    var goalsAt, ballsAt := QueryPositions(es, pos, goals), QueryPositions(es, pos, balls);
    assert (forall i :: 0 <= i < |goalsAt| ==> goalsAt[i] in ballsAt) <==> (forall p :: p in goalsAt ==> p in ballsAt) by {
      if forall i :: 0 <= i < |goalsAt| ==> goalsAt[i] in ballsAt {
        forall p | p in goalsAt ensures p in ballsAt {
          var i :| 0 <= i < |goalsAt| && goalsAt[i] == p;
        }
      }
    }
    assert (forall p :: p in goalsAt ==> p in ballsAt) <==> (forall g :: g in es && g in goals && g in pos ==> pos[g] in ballsAt);
    AllCovered(goalsAt, ballsAt)
  }

  /** `handle_goal`: on a won level, advance `CurrentLevel` by one and
      request `LevelTransition`; otherwise change neither. */
  function HandleGoal(es: seq<Entity>, pos: map<Entity, Pos>, goals: set<Entity>, balls: set<Entity>, level: nat)
    : (r: (nat, Option<GameState>))
    ensures GoalsSatisfied(es, pos, goals, balls) ==> r == (level + 1, Some(LevelTransition))
    ensures !GoalsSatisfied(es, pos, goals, balls) ==> r == (level, None)
  {
    if GoalsSatisfied(es, pos, goals, balls) then (level + 1, Some(LevelTransition)) else (level, None)
  }

  /** A ball moved off the only goal un-wins the level. */
  lemma {:induction false} BallOffGoalLoses(es: seq<Entity>, pos: map<Entity, Pos>, g: Entity, b: Entity, elsewhere: Pos)
    requires g in es && b in es && g != b && g in pos && b in pos && elsewhere != pos[g]
    ensures GoalsSatisfied(es, pos, {g}, {b}) <==> pos[b] == pos[g]
    ensures !GoalsSatisfied(es, pos[b := elsewhere], {g}, {b})
  {
    assert pos[b := elsewhere][b] != pos[b := elsewhere][g];
  }

  /** `handle_sand`: entities other than the player whose position changed
      this frame (`moved`, Bevy's `Changed<Pos>`) stop on sand. */
  method HandleSand(w: World, moved: set<Entity>)
    requires w.Valid()
    modifies w`momentum
    ensures w.Valid()
    ensures w.momentum == SandStop(old(w.momentum), w.pos, TilePositions(w.sands, w.pos), moved - w.players)
  {
    var sandAt := TilePositions(w.sands, w.pos);
    ghost var m0 := w.momentum;
    var eligible := moved - w.players;
    w.momentum := StopAll(w.entities, w.pos, sandAt, eligible, w.momentum);
    SandInQueryOrder(m0, w.entities, w.pos, sandAt, eligible);
  }

  /** `handle_void`: non-void entities whose position changed this frame
      and now lies on a void are despawned. */
  method HandleVoid(w: World, moved: set<Entity>)
    requires w.Valid()
    modifies w
    ensures w.Valid()
    ensures var doomed := VoidVictims(old(w.entities), old(w.pos), old(w.voids), moved);
      && w.entities == Without(old(w.entities), doomed)
      && w.pos == old(w.pos) - doomed && w.momentum == old(w.momentum) - doomed
      && w.block == old(w.block) - doomed && w.dependOn == old(w.dependOn) - doomed
      && w.balls == old(w.balls) - doomed && w.goals == old(w.goals) - doomed
      && w.sands == old(w.sands) - doomed && w.rubbers == old(w.rubbers) - doomed
      && w.voids == old(w.voids) && w.players == old(w.players) - doomed
  {
    var voidAt := TilePositions(w.voids, w.pos);
    var doomed: set<Entity> := {};
    var i := 0;
    while i < |w.entities|
      invariant 0 <= i <= |w.entities|
      invariant doomed == VoidVictims(w.entities[..i], w.pos, w.voids, moved)
    {
      var e := w.entities[i];
      if e !in w.voids && e in moved && e in w.pos && w.pos[e] in voidAt {
        doomed := doomed + {e};
      }
      assert w.entities[..i + 1] == w.entities[..i] + [e];
      i := i + 1;
    }
    assert w.entities[..i] == w.entities;
    w.Despawn(doomed);
  }

  /** The systems this plugin runs before `apply_momentum` in one frame, in
      `Play` when momentum can be applied (`can_apply_momentum`, given as
      `canApply`): `handle_rubber`, then `handle_void` chained before the
      re-run of `handle_momentum`. The plugin gives `handle_rubber` no
      order; two of its placements are modelled, `rubberFirst` choosing
      between before the whole chain and after it. Returns the move events
      of the re-run. */
  method BeforeApplyMomentum(w: World, state: GameState, canApply: bool, moved: set<Entity>, rubberFirst: bool)
    returns (events: seq<MoveEvent>)
    requires w.Valid()
    modifies w
    ensures w.Valid()
    ensures !(state == Play && canApply) ==> events == [] && unchanged(w)
    ensures state == Play && canApply ==>
      var doomed := VoidVictims(old(w.entities), old(w.pos), old(w.voids), moved);
      && w.entities == Without(old(w.entities), doomed)
      && w.pos == old(w.pos) - doomed
      && w.block == old(w.block) - doomed && w.dependOn == old(w.dependOn) - doomed
      && w.balls == old(w.balls) - doomed && w.goals == old(w.goals) - doomed
      && w.sands == old(w.sands) - doomed && w.rubbers == old(w.rubbers) - doomed
      && w.voids == old(w.voids) && w.players == old(w.players) - doomed
      && (rubberFirst ==>
            && w.momentum == RubberMomentum(old(w.momentum), old(w.pos), TilePositions(old(w.rubbers), old(w.pos))) - doomed
            && events == MoveEvents(w.entities, w.momentum))
      && (!rubberFirst ==>
            && w.momentum == RubberMomentum(old(w.momentum) - doomed, w.pos, TilePositions(w.rubbers, w.pos))
            && events == MoveEvents(w.entities, old(w.momentum) - doomed))
    ensures forall e, d :: Move(e, d) in events ==> e in w.entities
  {
    events := [];
    if state == Play && canApply {
      if rubberFirst {
        HandleRubber(w);
      }
      HandleVoid(w, moved);
      events := HandleMomentum(w);
      ghost var m := w.momentum;
      if !rubberFirst {
        HandleRubber(w);
      }
      forall e, d | Move(e, d) in events
        ensures e in w.entities
      {
        MoveEventIff(w.entities, m, e, d);
      }
    }
  }

  /** The system this plugin runs after `apply_momentum`: `handle_sand`,
      in `Play` when momentum can be applied. */
  method AfterApplyMomentum(w: World, state: GameState, canApply: bool, moved: set<Entity>)
    requires w.Valid()
    modifies w`momentum
    ensures w.Valid()
    ensures !(state == Play && canApply) ==> w.momentum == old(w.momentum)
    ensures state == Play && canApply ==>
      w.momentum == SandStop(old(w.momentum), w.pos, TilePositions(w.sands, w.pos), moved - w.players)
  {
    if state == Play && canApply {
      HandleSand(w, moved);
    }
  }

  /** `handle_goal` as scheduled: only in `Play` and only once no momentum
      is left (`any_momentum_left`, given as `anyLeft`). Returns the new
      `CurrentLevel` and the requested next state. */
  method GoalStep(w: World, state: GameState, anyLeft: bool, level: nat) returns (newLevel: nat, next: Option<GameState>)
    ensures !(state == Play && !anyLeft) ==> newLevel == level && next == None
    ensures next.Some? ==> state == Play && !anyLeft && next == Some(LevelTransition) && newLevel == level + 1
    ensures next.None? ==> newLevel == level
    ensures state == Play && !anyLeft ==>
      (next.Some? <==> GoalsSatisfied(w.entities, w.pos, w.goals, w.balls))
  {
    newLevel, next := level, None;
    if state == Play && !anyLeft {
      var r := HandleGoal(w.entities, w.pos, w.goals, w.balls, level);
      newLevel, next := r.0, r.1;
    }
  }
}
