/** The direction constant tables (src/sokoban/util.rs). */
module Util {
  import opened Sokoban

  /** `CARDINALS`: up, right, down, left. */
  const CARDINALS: seq<IVec2> := [IVec2(0, 1), IVec2(1, 0), IVec2(0, -1), IVec2(-1, 0)]

  /** `ORDINALS`: the four diagonals, clockwise from up-right. */
  const ORDINALS: seq<IVec2> := [IVec2(1, 1), IVec2(1, -1), IVec2(-1, -1), IVec2(-1, 1)]

  /** `DIRS`: all eight neighbours, clockwise from up. */
  const DIRS: seq<IVec2> :=
    [IVec2(0, 1), IVec2(1, 1), IVec2(1, 0), IVec2(1, -1),
     IVec2(0, -1), IVec2(-1, -1), IVec2(-1, 0), IVec2(-1, 1)]

  /** The `Dir` variants in declaration order. */
  const DIR_ORDER: seq<Dir> := [Up, Right, Down, Left]

  /** Every cardinal is a unit step along one axis, and the four differ. */
  lemma CardinalsAreUnitSteps()
    ensures |CARDINALS| == 4
    ensures forall i :: 0 <= i < 4 ==> Abs(CARDINALS[i].x) + Abs(CARDINALS[i].y) == 1
    ensures forall i, j :: 0 <= i < j < 4 ==> CARDINALS[i] != CARDINALS[j]
  {
  }

  /** Every ordinal moves by one along both axes, and the four differ. */
  lemma OrdinalsAreDiagonals()
    ensures |ORDINALS| == 4
    ensures forall i :: 0 <= i < 4 ==> Abs(ORDINALS[i].x) == 1 && Abs(ORDINALS[i].y) == 1
    ensures forall i, j :: 0 <= i < j < 4 ==> ORDINALS[i] != ORDINALS[j]
  {
  }

  /** `DIRS` interleaves the cardinals (even slots) with the ordinals (odd slots). */
  lemma DirsInterleave()
    ensures |DIRS| == 8
    ensures forall i :: 0 <= i < 4 ==> DIRS[2 * i] == CARDINALS[i] && DIRS[2 * i + 1] == ORDINALS[i]
  {
  }

  /** The i-th cardinal is the vector of the i-th `Dir` variant, and the
      cardinal two places on is its negation, as `Dir::opposite` is. */
  lemma CardinalsMatchDir()
    ensures forall i :: 0 <= i < 4 ==> CARDINALS[i] == DirVec(DIR_ORDER[i])
    ensures forall i :: 0 <= i < 4 ==> CARDINALS[(i + 2) % 4] == CARDINALS[i].Neg()
    ensures forall i :: 0 <= i < 4 ==> DIR_ORDER[(i + 2) % 4] == Opposite(DIR_ORDER[i])
  {
  }
}
