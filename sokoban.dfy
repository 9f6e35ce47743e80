/** Value types of the puzzle core: grid positions, directions and their
    arithmetic, block kinds, game states and the escape transition
    (src/sokoban/mod.rs). */
module Sokoban {

  datatype Option<+T> = None | Some(value: T)

  const U32_MAX: int := 0xFFFF_FFFF
  const I32_MAX: int := 0x7FFF_FFFF

  /** Rust's `u32`. */
  type u32 = x: int | 0 <= x <= U32_MAX

  function Abs(n: int): nat { if n < 0 then -n else n }

  /** Distance from `v` to the sum `a + d`. */
  function DistToSum(v: int, a: int, d: int): nat { Abs(v - (a + d)) }

  /** Bevy's `IVec2`; every value the model builds stays far inside `i32`. */
  datatype IVec2 = IVec2(x: int, y: int) {
    function Add(o: IVec2): IVec2 { IVec2(x + o.x, y + o.y) }
    function Neg(): IVec2 { IVec2(-x, -y) }
  }

  /** The four movement directions, in declaration order. */
  datatype Dir = Up | Right | Down | Left

  /** `Dir::opposite`: the reverse direction, never the direction itself. */
  function Opposite(d: Dir): (r: Dir)
    ensures r != d
    ensures (d == Up || d == Down) <==> (r == Up || r == Down)
  {
    match d
    case Up => Down
    case Down => Up
    case Left => Right
    case Right => Left
  }

  lemma OppositeInvolution(d: Dir)
    ensures Opposite(Opposite(d)) == d
  {
  }

  /** `From<Dir> for IVec2`: Up is +y, Right is +x. The vector is a unit
      step along exactly one axis. */
  function DirVec(d: Dir): (v: IVec2)
    ensures (v.x == 0) != (v.y == 0)
    ensures Abs(v.x) + Abs(v.y) == 1
    ensures (d == Up || d == Down) <==> v.x == 0
  {
    match d
    case Up => IVec2(0, 1)
    case Left => IVec2(-1, 0)
    case Down => IVec2(0, -1)
    case Right => IVec2(1, 0)
  }

  /** Opposite directions have opposite vectors. */
  lemma OppositeVec(d: Dir)
    ensures DirVec(Opposite(d)) == DirVec(d).Neg()
    ensures DirVec(d).Add(DirVec(Opposite(d))) == IVec2(0, 0)
  {
    match d
    case Up =>
    case Down =>
    case Left =>
    case Right =>
  }

  /** `u32::saturating_add_signed`: the `u32` nearest to `a + d`. */
  function SaturatingAddSigned(a: u32, d: int): (r: u32)
    ensures forall v: u32 :: DistToSum(r, a, d) <= DistToSum(v, a, d)
    ensures 0 <= a + d <= U32_MAX <==> r == a + d
  {
    if a + d < 0 then 0 else if a + d > U32_MAX then U32_MAX else a + d
  }

  /** `Pos`, a tile position with unsigned coordinates. */
  datatype Pos = Pos(x: u32, y: u32)

  /** `UVec2::as_ivec2`: each coordinate is cast `as i32`, wrapping values
      above `i32::MAX` to negatives. */
  function ToIVec2(p: Pos): (v: IVec2)
    ensures -I32_MAX - 1 <= v.x <= I32_MAX && -I32_MAX - 1 <= v.y <= I32_MAX
    ensures (v.x - p.x) % 0x1_0000_0000 == 0 && (v.y - p.y) % 0x1_0000_0000 == 0
    ensures p.x <= I32_MAX && p.y <= I32_MAX ==> v == IVec2(p.x, p.y)
  {
    IVec2(if p.x <= I32_MAX then p.x else p.x - 0x1_0000_0000,
          if p.y <= I32_MAX then p.y else p.y - 0x1_0000_0000)
  }

  /** The step `d` cannot take from `p` because a coordinate is at the edge
      of the `u32` range. */
  predicate Saturated(p: Pos, d: Dir) {
    match d
    case Up => p.y == U32_MAX
    case Right => p.x == U32_MAX
    case Down => p.y == 0
    case Left => p.x == 0
  }

  /** `Pos::add_dir` (an in-place update of a `Copy` value, modelled as the
      updated value): one saturating step along `d`. */
  function AddDir(p: Pos, d: Dir): (q: Pos)
    ensures (d == Up || d == Down) ==> q.x == p.x
    ensures (d == Left || d == Right) ==> q.y == p.y
    ensures Abs(q.x - p.x) <= 1 && Abs(q.y - p.y) <= 1
    ensures q == p <==> Saturated(p, d)
    ensures q != p ==> IVec2(q.x, q.y) == IVec2(p.x, p.y).Add(DirVec(d))
  {
    var v := DirVec(d);
    Pos(SaturatingAddSigned(p.x, v.x), SaturatingAddSigned(p.y, v.y))
  }

  /** A step that did not saturate is undone by a step the opposite way. */
  lemma AddDirRoundTrip(p: Pos, d: Dir)
    requires AddDir(p, d) != p
    ensures AddDir(AddDir(p, d), Opposite(d)) == p
  {
  }

  /** `SokobanBlock`. */
  datatype Block = Static | Dynamic

  /** `GameState`. */
  datatype GameState = AssetLoading | MainMenu | LevelSelect | LevelTransition | Play | Pause

  /** The just-pressed flags of the game's `ActionState<SokobanActions>`
      that the core reads. */
  datatype Actions = Actions(undo: bool, escape: bool, reset: bool)

  /** `escape`: the state requested through `NextState` (`None` when it is
      left untouched). `actions` holds every `ActionState` entity; anything
      but exactly one makes the system return early. */
  function Escape(actions: seq<Actions>, current: GameState): (next: Option<GameState>)
    ensures next.Some? ==> next.value != current && next.value in {MainMenu, Play, Pause}
    ensures next.Some? <==> |actions| == 1 && actions[0].escape && current in {LevelSelect, Play, Pause}
    ensures next.Some? && current == LevelSelect ==> next.value == MainMenu
    ensures next.Some? && current == Play ==> next.value == Pause
    ensures next == Some(Play) <==> next.Some? && current == Pause
  {
    if |actions| != 1 || !actions[0].escape then None
    else match current
      case LevelSelect => Some(MainMenu)
      case Play => Some(Pause)
      case Pause => Some(Play)
      case _ => None
  }

  /** Escape toggles between Play and Pause: pressing it twice from Play
      comes back to Play. */
  lemma EscapeTwiceFromPlay(a: Actions)
    requires a.escape
    ensures Escape([a], Play) == Some(Pause)
    ensures Escape([a], Escape([a], Play).value) == Some(Play)
  {
  }
}
