# Sokoban grid rules in Dafny

A verified model of the game rules of a Bevy Sokoban game (syynis/sokoban):

- direction and tile-position arithmetic, with saturating steps;
- the collision grid and how a push resolves along a chain of blocks;
- the per-entity undo history with Record, Rewind and Reset, and the undo input system that drives it;
- the terrain rules: rubber bounces, sand stops, void swallows;
- the two win rules (all goals covered by balls; the player on the single goal);
- the momentum-to-move-event pass;
- the delayed event scheduler;
- state-scoped cleanup and the escape state machine.

The entity-component world is a `World` object (`ecs.dfy`). It holds:

- the entity ids in query order;
- one map per component: `Pos`, `Momentum`, `SokobanBlock` and `DependOnState`;
- one set per marker component: Ball, Goal, Sand, Rubber, Void and Player.

Engine features map onto the model as follows:

- A query is a loop over the entity sequence.
- `Changed<Pos>` is a `moved` set passed in.
- A despawn removes the id and all its components.
- A write to `NextState` is an `Option<GameState>` result, where `None` means untouched.
- Events a system sends are its returned sequence.

Each system that updates state in place is a method:

- its loop is proved against a specification function of the old state;
- lemmas relate that function to the rule it implements.

For example:

- `RubberInQueryOrder` shows the in-order rubber loop builds the table `RubberMomentum` describes.
- `WalkAlongRun` and the `PushChain*` lemmas pin down every outcome of `push_collision`.
- `RecordsThenRewinds` shows that n Records followed by n Rewinds restore an entity's history.
- `UpdateSplits` shows that the scheduler keeps queue order.

One module per source file: `Sokoban` (mod.rs: types, `Dir`, `Pos`, escape), `Util`, `Ecs`, `Momentum`, `Rubber`,
`Sand`, `Void`, `Goal`, `TileBehaviour`, `Cleanup`, `EventScheduler`, `History`, `Undo` (the `undo` system of mod.rs)
and `Collision`.

## Model

| member | source | states |
|---|---|---|
| Sokoban.Opposite | src/sokoban/mod.rs:257-265 | the opposite direction differs from the original and lies on the same axis |
| Sokoban.OppositeInvolution | src/sokoban/mod.rs:257-265 | `opposite` is an involution |
| Sokoban.DirVec | src/sokoban/mod.rs:268-277 | each direction's vector is a unit step along exactly one axis; Up and Down are the vertical ones |
| Sokoban.OppositeVec | src/sokoban/mod.rs:257-277 | the vector of the opposite direction is the negated vector, so the two sum to zero |
| Sokoban.SaturatingAddSigned | src/sokoban/mod.rs:222-223 | `saturating_add_signed` gives the `u32` closest to `a + d`, which is `a + d` exactly when that is in range |
| Sokoban.ToIVec2 | src/sokoban/mod.rs:227-231 | the `as i32` cast lands in the i32 range, agrees with the coordinate modulo 2^32, and is the identity up to `i32::MAX` |
| Sokoban.AddDir | src/sokoban/mod.rs:220-224 | `add_dir` leaves the off-axis coordinate alone and moves the other by at most 1; the position is unchanged exactly when the step saturates at the `u32` edge, and otherwise it moves by the direction's vector |
| Sokoban.AddDirRoundTrip | src/sokoban/mod.rs:220-224 | a step that did not saturate is undone by a step in the opposite direction |
| Sokoban.Escape | src/sokoban/mod.rs:194-210 | the next state is set only with exactly one action state, Escape pressed, and the current state LevelSelect, Play or Pause; from LevelSelect it is MainMenu, from Play it is Pause, and it is Play exactly when leaving Pause |
| Sokoban.EscapeTwiceFromPlay | src/sokoban/mod.rs:202-209 | pressing Escape in Play and again in the resulting state returns to Play |
| Util.CardinalsAreUnitSteps | src/sokoban/util.rs:3 | the four cardinals are distinct unit axis steps |
| Util.OrdinalsAreDiagonals | src/sokoban/util.rs:5-10 | the four ordinals are distinct and move by one on both axes |
| Util.DirsInterleave | src/sokoban/util.rs:3-21 | `DIRS[2i]` is `CARDINALS[i]` and `DIRS[2i+1]` is `ORDINALS[i]` |
| Util.CardinalsMatchDir | src/sokoban/util.rs:3 | `CARDINALS[i]` is the vector of the i-th `Dir` variant; the cardinal two places on is its negation and belongs to the opposite direction |
| Ecs.World.Despawn | src/sokoban/void.rs:27 | despawning removes exactly the doomed ids from the entity order (`Without`) and every component map and marker set, and keeps every component attached to a live entity |
| Ecs.WithoutAppend | src/sokoban/void.rs:27 | removing despawned ids works part by part over the entity order, so the survivors keep their relative query order |
| Ecs.QueryPositions | src/sokoban/goal.rs:44-52 | a `Query<&Pos, With<Marker>>` yields exactly the positions of the matched entities, one per matched entity when ids are unique |
| Momentum.MoveEventsAreMovingEntities | src/sokoban/momentum.rs:20-24 | one event per entity with `Some` momentum, in query order, each carrying that entity's direction |
| Momentum.MoveEventIff | src/sokoban/momentum.rs:20-23 | `Move(e, d)` is sent exactly when `e` is queried and its momentum is `Some(d)`; `None` momentum sends nothing |
| Momentum.HandleMomentum | src/sokoban/momentum.rs:16-25 | the read-only loop sends exactly `MoveEvents` of the world and changes nothing |
| Rubber.RubberMomentum | src/sokoban/rubber.rs:28-37 | momentum `Some(d)` with rubber at the saturating step `pos.add_dir(d)` becomes `Some(opposite(d))`; any other momentum is unchanged; no momentum is set or cleared |
| Rubber.RubberAtEdgeProbesOwnCell | src/sokoban/rubber.rs:30-33 | at x = 0 moving Left the probed cell is the entity's own, so rubber underneath bounces it Right |
| Rubber.BouncedMoveIsEmitted | src/sokoban/rubber.rs:14-15 | run before `handle_momentum`, the emitted move carries the bounced direction and not the original one |
| Rubber.RubberInQueryOrder | src/sokoban/rubber.rs:28-37 | visiting the entities one by one in query order changes each listed entity once, from its original momentum, and leaves the others alone |
| Rubber.BounceAll | src/sokoban/rubber.rs:28-37 | the loop over the query computes `BounceEach`, the in-order visit |
| Rubber.HandleRubber | src/sokoban/rubber.rs:24-38 | `handle_rubber` (also tile_behaviour.rs:56-70, textually the same) leaves the momentum table as `RubberMomentum` of the old one, and touches nothing but momentum; the world stays well formed |
| Sand.SandStop | src/sokoban/sand.rs:23-31 | a visited entity's momentum becomes `None` exactly when it stands on a sand position; any other momentum is kept |
| Sand.SandStopIdempotent | src/sokoban/sand.rs:23-31 | a second sand pass changes nothing |
| Sand.SandInQueryOrder | src/sokoban/sand.rs:23-31 | visiting the entities in query order gives each listed entity the `SandStop` outcome and leaves the others alone |
| Sand.StopAll | src/sokoban/sand.rs:23-31 | the loop over the query computes `StopEach`, the in-order visit |
| Sand.ApplySand | src/sokoban/sand.rs:19-32 | `apply_sand` stops every entity with momentum that stands on sand, the player included and moved or not; other momentum and all positions are unchanged; the world stays well formed |
| Void.VoidVictims | src/sokoban/void.rs:19-29 | the doomed are exactly the visited non-void entities whose position is a void position; void tiles are never doomed |
| Void.VoidIdempotent | src/sokoban/void.rs:21-29 | after the victims are despawned, a second pass finds none |
| Void.ApplyVoid | src/sokoban/void.rs:16-30 | `apply_void` despawns exactly the victims among all entities, moved or not; survivors keep their positions and every other component |
| Goal.CheckGoal | src/sokoban/goal.rs:44-56 | the state is left untouched unless there are exactly one goal and exactly one player; then it is set to LevelSelect exactly when their positions coincide |
| Goal.CheckGoalIn | src/sokoban/goal.rs:39-57 | with unique ids, the state is left untouched unless exactly one goal entity and exactly one player entity have a position; a request is always LevelSelect and always has a goal and a player on the same cell |
| Goal.SingleGoalSinglePlayer | src/sokoban/goal.rs:44-56 | in any world with unique ids, one goal entity and one player entity, LevelSelect is requested exactly when they share a position |
| Goal.TwoGoalsNeverWin | src/sokoban/goal.rs:44-47 | two goal entities with positions make the system leave the state untouched, wherever the player stands |
| TileBehaviour.AnyAt | src/sokoban/tile_behaviour.rs:92 | `any` over ball positions holds exactly when the goal position is among them |
| TileBehaviour.AllCovered | src/sokoban/tile_behaviour.rs:90-92 | `all`/`any` holds exactly when every goal position is a ball position |
| TileBehaviour.GoalsSatisfied | src/sokoban/tile_behaviour.rs:90-92 | the win predicate holds exactly when every goal entity has a ball entity on its cell; it holds vacuously with no goals |
| TileBehaviour.HandleGoal | src/sokoban/tile_behaviour.rs:84-97 | when the predicate holds, the level goes up by exactly one and LevelTransition is requested; otherwise neither changes |
| TileBehaviour.BallOffGoalLoses | src/sokoban/tile_behaviour.rs:90-92 | with one goal and one ball, the level is won exactly when the ball is on the goal, and moving the ball elsewhere un-wins it |
| TileBehaviour.HandleSand | src/sokoban/tile_behaviour.rs:45-54 | `handle_sand` is `SandStop` restricted to non-player entities that moved this frame; players and unmoved entities keep their momentum; the world stays well formed |
| TileBehaviour.HandleVoid | src/sokoban/tile_behaviour.rs:72-82 | `handle_void` despawns exactly the non-void entities that moved this frame onto a void position; void tiles and unmoved entities survive |
| TileBehaviour.BeforeApplyMomentum | src/sokoban/tile_behaviour.rs:17-28 | outside Play, or when momentum cannot be applied, nothing happens; otherwise rubber, then void chained before the momentum re-run, in either order of rubber against that chain; in Play exactly the moved non-void entities on a void are despawned from the order and every component table, void tiles stay, and every re-run event names a surviving entity |
| TileBehaviour.AfterApplyMomentum | src/sokoban/tile_behaviour.rs:26-28 | sand runs after `apply_momentum`, only in Play when momentum can be applied, and otherwise leaves momentum unchanged |
| TileBehaviour.GoalStep | src/sokoban/tile_behaviour.rs:29-31 | the goal check runs only in Play with no momentum left; LevelTransition is requested only then and exactly when the predicate holds, with the level raised by one; without a request the level is unchanged |
| Cleanup.StaleFor | src/sokoban/cleanup.rs:21-24 | the doomed are exactly the entities tagged with a state other than the pending one |
| Cleanup.CleanupSurvivors | src/sokoban/cleanup.rs:21-24 | an entity survives exactly when it is untagged or tagged with the pending state |
| Cleanup.CleanupOnStateChange | src/sokoban/cleanup.rs:12-26 | with no pending state the world is unchanged; otherwise exactly the stale entities are despawned |
| Cleanup.CleanupAllWith | src/sokoban/cleanup.rs:3-7 | exactly the entities carrying the component are despawned |
| EventScheduler.Tick | src/sokoban/event_scheduler.rs:71-72 | ticking keeps the duration; the timer is finished exactly when elapsed plus delta reaches the duration, and otherwise elapsed grows by delta |
| EventScheduler.Kept | src/sokoban/event_scheduler.rs:70-79 | every retained entry is unfinished |
| EventScheduler.UpdatePartitions | src/sokoban/event_scheduler.rs:67-79 | sent events and retained entries together are exactly the old queue, as a multiset and by count |
| EventScheduler.UpdateSplits | src/sokoban/event_scheduler.rs:67-79 | an update acts on the queue part by part, so sent events and retained entries both keep queue order |
| EventScheduler.KeptAreTicked | src/sokoban/event_scheduler.rs:71-77 | every entry that does not finish is retained with its timer advanced by the update's delta, and is not sent unless another entry carries the same event |
| EventScheduler.FiredFromQueue | src/sokoban/event_scheduler.rs:72-74 | every sent event belongs to an entry of the old queue whose timer finished |
| EventScheduler.ScheduledEventFires | src/sokoban/event_scheduler.rs:54-74 | a newly scheduled event goes out, after everything already due, on the first update whose delta reaches its duration, and leaves the rest of the queue as it would be otherwise |
| EventScheduler.Scheduler.constructor | src/sokoban/event_scheduler.rs:39-48 | a new scheduler is empty |
| EventScheduler.Scheduler.Schedule | src/sokoban/event_scheduler.rs:54-57 | the event is appended with a fresh once-timer and earlier entries are untouched |
| EventScheduler.Scheduler.Update | src/sokoban/event_scheduler.rs:60-80 | the update sends `Fired` and keeps `Kept` of the old queue |
| History.Apply | src/sokoban/history.rs:38-59 | Record grows the history by one and keeps the value; Record pushes the current value; Rewind on a non-empty history pops its last entry into the value; Reset on a non-empty history pushes the current value and restores the first entry; Rewind and Reset on an empty history change nothing; older entries are always kept |
| History.ReplayAppend | src/sokoban/history.rs:37-60 | events take effect in arrival order: two batches in turn are their concatenation |
| History.RecordThenRewind | src/sokoban/history.rs:39-49 | Rewind after Record restores both the history and the recorded value, even if the value changed in between |
| History.ResetThenRewind | src/sokoban/history.rs:44-58 | Rewind after Reset restores the pre-reset state |
| History.ResetsKeepFirst | src/sokoban/history.rs:51-58 | any run of Resets keeps the first entry, goes back to it, and grows the history by one per Reset |
| History.RecordsThenRewinds | src/sokoban/history.rs:39-49 | n Records followed by n Rewinds leave an entity's entry as it was |
| History.Tracked.ApplyToAll | src/sokoban/history.rs:38-59 | one event changes each tracked entity as `Apply` says, from that entity's own entry alone |
| History.ApplyRows | src/sokoban/history.rs:38-59 | the loop over the query gives every matched entity `Apply` of its own old row and keeps the set of matched entities |
| History.Tracked.HandleHistoryCommands | src/sokoban/history.rs:33-62 | each tracked entity ends as the replay of all events, in arrival order, on its own entry |
| Undo.UndoCommand | src/sokoban/mod.rs:177-191 | with exactly one action state, Undo sends Rewind even when Reset is also pressed; Reset alone sends Reset; otherwise nothing is sent; Record is never sent |
| Undo.HandleUndo | src/sokoban/mod.rs:173-192 | the command, if any, is sent once, and then every entity's momentum is taken; with nothing sent, momentum is unchanged; the world stays well formed |
| Undo.TakeAll | src/sokoban/mod.rs:182-184 | the loop over the query clears every momentum and keeps the set of entities with one |
| Undo.UndoAfterRecordRestores | src/sokoban/mod.rs:180-184 | pressing Undo right after a Record puts each tracked entity back where it was recorded |
| Collision.LastAt | src/sokoban/collision.rs:63-68 | a cell is empty exactly when no entity with a position and a block is on it; otherwise it holds one of them, with its block kind |
| Collision.LastWriteWins | src/sokoban/collision.rs:66-68 | an entity on the cell followed in query order only by entities elsewhere is what the cell holds |
| Collision.CollisionMap.constructor | src/sokoban/collision.rs:31-37 | the default map is a fresh empty 0 by 0 grid |
| Collision.CollisionMap.PushCollision | src/sokoban/collision.rs:78-108 | the loop terminates, does not modify the map, and returns `PushResult` |
| Collision.CollisionMap.WalkAlongRun | src/sokoban/collision.rs:88-100 | after j dynamic blocks the walk has collected every earlier entity, in walk order, and carries block j's |
| Collision.CollisionMap.PushChainMoves | src/sokoban/collision.rs:94-104 | k dynamic blocks then an empty cell give `Push` of exactly k + 1 entities, the pusher first, then the blocks in walk order |
| Collision.CollisionMap.PushChainHitsWall | src/sokoban/collision.rs:88-93 | k dynamic blocks then a static one give `Wall` |
| Collision.CollisionMap.PushChainLeavesGrid | src/sokoban/collision.rs:88-107 | k dynamic blocks then the grid edge give `Push` of every chain member except the last, `Push([])` when k = 0, and never `OutOfBounds` |
| Collision.CollisionMap.StaticOriginPushes | src/sokoban/collision.rs:79 | the origin's block kind is never consulted: a static pusher with an empty neighbour pushes itself |
| Collision.CollisionMap.WalkNeverOutOfBounds | src/sokoban/collision.rs:88-107 | once the walk has started it never ends in `OutOfBounds` |
| Collision.CollisionMap.PushOutOfBoundsIff | src/sokoban/collision.rs:79-81 | the result is `OutOfBounds` exactly when the origin is off the grid or empty |
| Collision.CollisionMap.Populate | src/sokoban/collision.rs:66-68 | writing the entities in query order over an empty grid leaves every cell holding `LastAt` of its coordinate |
| Collision.CollisionMap.Sync | src/sokoban/collision.rs:59-69 | after clearing and rewriting, every cell is `LastAt` of its coordinate, so a cell is empty unless an entity stands there and last write wins |
| Collision.CollisionMap.Init | src/sokoban/collision.rs:39-56 | without exactly one new level marker the map is kept; otherwise it becomes a fresh grid of the level's size holding `LastAt` of each coordinate |

## Left out

- Sokoban.AddDir: `Pos::add_dir` updates a `Copy` value in place. It is modelled as a function returning the updated value, which is the same thing for a value type.
- Ecs.World.Despawn: `despawn_recursive` also removes child entities. The model has no parent/child hierarchy, so only the entity itself goes.
- Bevy `Commands` are deferred. Despawns are applied once, at the end of the system that issues them, as if the command buffer were flushed right after the system. Within `TileBehaviour.BeforeApplyMomentum` this includes a flush between `handle_void` and the `handle_momentum` re-run, which `.chain()` in tile_behaviour.rs:22-24 does not itself establish; the promise that every re-run event names a surviving entity rests on it.
- `apply_momentum` is left out because its source is not part of this model. So are the momentum transfer systems and the `can_apply_momentum` and `any_momentum_left` run conditions, for the same reason. The two conditions are boolean parameters (`canApply`, `anyLeft`).
- TileBehaviour.BeforeApplyMomentum: the plugin gives `handle_rubber` no ordering at all (tile_behaviour.rs:20-27). The model covers only two placements, chosen by `rubberFirst`: before `handle_void`, or after the `handle_momentum` re-run, both before `apply_momentum`. Left out are rubber running between `handle_void` and `handle_momentum` (events as with `rubberFirst`, final momentum as without; it differs only when a rubber entity is itself a void victim), and rubber running after `apply_momentum`, before or after `handle_sand`.
- TileBehaviour.HandleGoal: `CurrentLevel` is an unbounded natural number, so `usize` overflow on `add_assign(1)` is not modelled.
- Momentum.HandleMomentum: sends `SokobanEvent::Move`, which the `SokobanEvent` enum in mod.rs:165-171 does not declare. The model follows momentum.rs as written.
- Undo.HandleUndo: its `run_if(in_state(Play))` gate and its ordering after the history systems (mod.rs:84-86) are not modelled. The system is specified as it runs whenever it is scheduled.
- EventScheduler.Tick: Bevy's `Timer` internals are not visible. A once-timer is modelled as whole-number elapsed and duration that stops at its duration, finished when elapsed reaches duration. `Duration` fractions and `just_finished` are not modelled.
- History.Tracked: models `handle_history_commands::<C>` for any component `C`. The game registers it for `Pos` (mod.rs:51). The tracked rows are kept apart from `World`, so despawning does not reach them.
- Collision.CollisionMap.Sync: `Grid::set` outside the grid is not visible, so every entity with a position and a block is required to lie inside the grid.
- Collision.CollisionMap.Init: the same in-grid requirement as `Sync`. In addition, the level size is required to fit in `i32`, because `Grid::new` with a negative size is not visible. The requirement applies only when one marker was added.
- Collision.LevelMarker: only the level size is modelled. Its definition is not part of this model.
- Collision.CollisionMap.PushCollision: positions are unbounded integers. `i32` overflow of `pos + dir` cannot occur inside a grid whose size fits in `i32`.
- Logging (`log::warn!`, `log::debug!`) is left out because it has no effect on game state.
- `copy_pos_to_transform` (mod.rs:239-246) and the 8 Hz fixed timestep (mod.rs:79) are left out. Both concern floating-point rendering and wall-clock cadence.
- Plugin registration and the Bevy scheduler are modelled only through the explicit sequencing in `TileBehaviour`.
- Menus, level loading, audio, UI, player input binding and entity spawning are outside the game rules and are not modelled.
