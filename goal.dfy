/** The single-goal win rule (src/sokoban/goal.rs): the player standing on
    the one goal sends the game to level select. */
module Goal {
  import opened Sokoban
  import opened Ecs

  /** `check_goal` given the positions its two queries yield: the state it
      requests through `NextState`, `None` when it leaves it untouched.
      Zero or several goals, or zero or several players, only warn. */
  function CheckGoal(goalsAt: seq<Pos>, playersAt: seq<Pos>): (next: Option<GameState>)
    ensures |goalsAt| != 1 || |playersAt| != 1 ==> next == None
    ensures |goalsAt| == 1 && |playersAt| == 1 ==>
      (next == Some(LevelSelect) <==> goalsAt[0] == playersAt[0])
    ensures next.Some? ==> next.value == LevelSelect
  {
    if |goalsAt| != 1 then None
    else if |playersAt| != 1 then None
    else if goalsAt[0] == playersAt[0] then Some(LevelSelect)
    else None
  }

  /** `check_goal` run against the world: with unique ids, the state is
      requested only when exactly one goal and exactly one player have a
      position, and then only when some goal and some player share a cell. */
  function CheckGoalIn(es: seq<Entity>, pos: map<Entity, Pos>, goals: set<Entity>, players: set<Entity>)
    : (next: Option<GameState>)
    ensures next.Some? ==> next.value == LevelSelect
    ensures next.Some? ==> exists g, p :: g in es && g in goals && g in pos && p in es && p in players && p in pos && pos[g] == pos[p]
    ensures NoDup(es) && |Matched(es, pos, goals)| != 1 ==> next == None
    ensures NoDup(es) && |Matched(es, pos, players)| != 1 ==> next == None
  {
    var goalsAt, playersAt := QueryPositions(es, pos, goals), QueryPositions(es, pos, players);
    assert |goalsAt| == 1 && |playersAt| == 1 ==> goalsAt[0] in goalsAt && playersAt[0] in playersAt;
    CheckGoal(goalsAt, playersAt)
  }

  /** In any world with unique ids, one goal entity and one player entity:
      the level is won exactly when the two share a cell. */
  lemma {:induction false} SingleGoalSinglePlayer(es: seq<Entity>, pos: map<Entity, Pos>, goals: set<Entity>,
                                                  players: set<Entity>, g: Entity, p: Entity)
    requires NoDup(es)
    requires Matched(es, pos, goals) == {g} && Matched(es, pos, players) == {p}
    ensures CheckGoalIn(es, pos, goals, players) == Some(LevelSelect) <==> pos[g] == pos[p]
  {
    var goalsAt, playersAt := QueryPositions(es, pos, goals), QueryPositions(es, pos, players);
    assert g in Matched(es, pos, goals) && p in Matched(es, pos, players);
    assert |goalsAt| == 1 && |playersAt| == 1;
    assert goalsAt[0] in goalsAt && playersAt[0] in playersAt;
    assert goalsAt[0] == pos[g];
    assert playersAt[0] == pos[p];
  }

  /** Two goal entities with positions, wherever they are, make `check_goal`
      leave the state untouched, even with the player on one of them. */
  lemma TwoGoalsNeverWin(es: seq<Entity>, pos: map<Entity, Pos>, goals: set<Entity>, players: set<Entity>,
                         g1: Entity, g2: Entity)
    requires NoDup(es)
    requires g1 != g2 && g1 in es && g2 in es && g1 in goals && g2 in goals && g1 in pos && g2 in pos
    ensures CheckGoalIn(es, pos, goals, players) == None
  {
    assert {g1, g2} <= Matched(es, pos, goals);
    assert |{g1, g2}| == 2;
    SubsetCard({g1, g2}, Matched(es, pos, goals));
  }

  /** A subset is no larger than its superset. */
  lemma SubsetCard(a: set<Entity>, b: set<Entity>)
    requires a <= b
    ensures |a| <= |b|
  {
    assert b == a + (b - a);
  }
}
