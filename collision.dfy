/** The collision grid and push resolution (src/sokoban/collision.rs). The
    grid holds, per cell, the block standing there, if any; a push walks
    from the pusher along a direction collecting the blocks it moves. */
module Collision {
  import opened Sokoban
  import opened Ecs

  /** What a grid cell can hold: an entity and its `SokobanBlock` kind. */
  datatype Occupant = Occupant(entity: Entity, block: Block)

  type Cell = Option<Occupant>

  /** `CollisionResult`. */
  datatype CollisionResult = Push(moving: seq<Entity>) | Wall | OutOfBounds

  /** The marker component of a freshly loaded level; only its size is
      used here. */
  datatype LevelMarker = LevelMarker(width: u32, height: u32)

  /** The cell `i` steps from `o` along `d`. */
  function Step(o: IVec2, d: Dir, i: nat): IVec2 {
    if i == 0 then o else Step(o, d, i - 1).Add(DirVec(d))
  }

  /** The entity that is last in query order among those with a `Pos` and a
      `SokobanBlock` at `p`, with its block: what the cell at `p` holds
      once every entity has been written in query order. */
  function LastAt(es: seq<Entity>, pos: map<Entity, Pos>, block: map<Entity, Block>, p: IVec2)
    : (r: Cell)
    ensures r.None? <==> forall e :: e in es && e in pos && e in block ==> ToIVec2(pos[e]) != p
    ensures r.Some? ==> var e := r.value.entity;
      e in es && e in pos && e in block && ToIVec2(pos[e]) == p && r.value.block == block[e]
  {
    if es == [] then None
    else
      var e, init := es[|es| - 1], es[..|es| - 1];
      if e in pos && e in block && ToIVec2(pos[e]) == p then
        Some(Occupant(e, block[e]))
      else
        var r := LastAt(init, pos, block, p);
        assert forall x :: x in init ==> x in es;
        r
  }

  /** Writing one more entity in query order changes only its own cell. */
  lemma LastAtSnoc(es: seq<Entity>, pos: map<Entity, Pos>, block: map<Entity, Block>, p: IVec2)
    requires es != []
    ensures var e := es[|es| - 1];
      LastAt(es, pos, block, p) ==
        if e in pos && e in block && ToIVec2(pos[e]) == p then Some(Occupant(e, block[e]))
        else LastAt(es[..|es| - 1], pos, block, p)
  {
  }

  /** Last write wins: an entity at `p` followed in query order only by
      entities elsewhere is what the cell at `p` ends up holding. */
  lemma {:induction false} LastWriteWins(before: seq<Entity>, e: Entity, after: seq<Entity>,
                                         pos: map<Entity, Pos>, block: map<Entity, Block>, p: IVec2)
    requires e in pos && e in block && ToIVec2(pos[e]) == p
    requires forall x :: x in after && x in pos && x in block ==> ToIVec2(pos[x]) != p
    ensures LastAt(before + [e] + after, pos, block, p) == Some(Occupant(e, block[e]))
  {
    var es := before + [e] + after;
    if after == [] {
      assert es == before + [e];
    } else {
      var init := after[..|after| - 1];
      assert es[..|es| - 1] == before + [e] + init;
      assert es[|es| - 1] == after[|after| - 1];
      LastWriteWins(before, e, init, pos, block, p);
      LastAtSnoc(es, pos, block, p);
    }
  }

  /** Every entity with a `Pos` and a block lies inside a `width` by
      `height` grid. */
  ghost predicate AllInside(es: seq<Entity>, pos: map<Entity, Pos>, block: map<Entity, Block>, width: int, height: int) {
    forall e :: e in es && e in pos && e in block ==>
      0 <= ToIVec2(pos[e]).x < width && 0 <= ToIVec2(pos[e]).y < height
  }

  /** `CollisionMap`: cell `[x, y]` of `cells` is grid coordinate `(x, y)`. */
  class CollisionMap {
    var cells: array2<Cell>

    /** `CollisionMap::default`: an empty grid of size 0 by 0. */
    constructor ()
      ensures fresh(cells) && cells.Length0 == 0 && cells.Length1 == 0
    {
      cells := new Cell[0, 0];
    }

    predicate InGrid(p: IVec2)
      reads this
    {
      0 <= p.x < cells.Length0 && 0 <= p.y < cells.Length1
    }

    /** `Grid::get`: the cell's content, `None` off the grid. */
    function Get(p: IVec2): (r: Option<Cell>)
      reads this, cells
      ensures r.Some? <==> InGrid(p)
      ensures r.Some? ==> r.value == cells[p.x, p.y]
    {
      if InGrid(p) then Some(cells[p.x, p.y]) else None
    }

    /** How many more cells along `d` the grid holds from `p`, counting `p`. */
    function Room(p: IVec2, d: Dir): nat
      reads this
    {
      if !InGrid(p) then 0
      else match d
        case Up => cells.Length1 - p.y
        case Right => cells.Length0 - p.x
        case Down => p.y + 1
        case Left => p.x + 1
    }

    /** The rest of a push walk: `pusher` is the last entity collected so
        far (not yet in `moving`) and `dest` the next cell to look at. */
    function Walk(pusher: Entity, dest: IVec2, d: Dir, moving: seq<Entity>): CollisionResult
      reads this, cells
      decreases Room(dest, d)
    {
      match Get(dest)
      case None => Push(moving)
      case Some(None) => Push(moving + [pusher])
      case Some(Some(occ)) =>
        if occ.block == Static then Wall
        else Walk(occ.entity, dest.Add(DirVec(d)), d, moving + [pusher])
    }

    /** What pushing from `origin` along `d` resolves to. */
    function PushResult(origin: IVec2, d: Dir): CollisionResult
      reads this, cells
    {
      match Get(origin)
      case Some(Some(occ)) => Walk(occ.entity, origin.Add(DirVec(d)), d, [])
      case _ => OutOfBounds
    }

    /** `push_collision`: walk from the pusher along `direction`. A static
        block ends the walk with `Wall`; a dynamic one joins the chain; an
        empty cell ends it with every collected entity moving; leaving the
        grid ends it with the entities collected before the last one. */
    method PushCollision(pusherPos: IVec2, direction: Dir) returns (r: CollisionResult)
      ensures r == PushResult(pusherPos, direction)
    {
      var first := Get(pusherPos);
      if !(first.Some? && first.value.Some?) {
        return OutOfBounds;
      }
      var pusher := first.value.value.entity;
      var moving: seq<Entity> := [];
      var currentPos := pusherPos;
      var dest := currentPos.Add(DirVec(direction));
      while Get(dest).Some?
        invariant Walk(pusher, dest, direction, moving) == PushResult(pusherPos, direction)
        decreases Room(dest, direction)
      {
        var destEntity := Get(dest).value;
        match destEntity {
          case Some(occ) =>
            if occ.block == Static {
              return Wall;
            }
            moving := moving + [pusher];
            pusher := occ.entity;
            currentPos := dest;
            dest := currentPos.Add(DirVec(direction));
          case None =>
            return Push(moving + [pusher]);
        }
      }
      r := Push(moving);
    }

    /** The occupant at `p`, when there is one. */
    function OccupantAt(p: IVec2): Occupant
      reads this, cells
      requires Get(p).Some? && Get(p).value.Some?
    {
      Get(p).value.value
    }

    /** Cells 1 to `k` along `d` from `o` all hold dynamic blocks. */
    ghost predicate DynamicRun(o: IVec2, d: Dir, k: nat)
      reads this, cells
    {
      forall i :: 1 <= i <= k ==>
        Get(Step(o, d, i)).Some? && Get(Step(o, d, i)).value.Some? &&
        Get(Step(o, d, i)).value.value.block == Dynamic
    }

    /** The origin's entity followed by the entities of cells 1 to `k`. */
    ghost function RunEntities(o: IVec2, d: Dir, k: nat): (r: seq<Entity>)
      reads this, cells
      requires Get(o).Some? && Get(o).value.Some? && DynamicRun(o, d, k)
      ensures |r| == k + 1 && r[0] == OccupantAt(o).entity
      ensures r[k] == OccupantAt(Step(o, d, k)).entity
    {
      if k == 0 then [OccupantAt(o).entity]
      else RunEntities(o, d, k - 1) + [OccupantAt(Step(o, d, k)).entity]
    }

    /** Walking along a run of dynamic blocks: after `j` of them the walk
        has collected all entities before cell `j` and carries cell `j`'s. */
    lemma {:induction false} WalkAlongRun(o: IVec2, d: Dir, k: nat, j: nat)
      requires Get(o).Some? && Get(o).value.Some? && DynamicRun(o, d, k) && j <= k
      ensures PushResult(o, d) ==
        Walk(OccupantAt(Step(o, d, j)).entity, Step(o, d, j + 1), d, RunEntities(o, d, j)[..j])
    {
      if j == 0 {
        assert Step(o, d, 1) == o.Add(DirVec(d));
      } else {
        WalkAlongRun(o, d, k, j - 1);
        var prev := Step(o, d, j);
        assert Get(prev).Some? && Get(prev).value.Some? && Get(prev).value.value.block == Dynamic;
        var before, carried := RunEntities(o, d, j - 1)[..j - 1], OccupantAt(Step(o, d, j - 1)).entity;
        assert Step(o, d, j + 1) == prev.Add(DirVec(d));
        assert Walk(carried, prev, d, before) == Walk(OccupantAt(prev).entity, Step(o, d, j + 1), d, before + [carried]);
        assert RunEntities(o, d, j)[..j] == before + [carried];
      }
    }

    /** `k` dynamic blocks and then an empty cell: every one of the `k + 1`
        entities moves, the pusher first and the others in walk order. */
    lemma PushChainMoves(o: IVec2, d: Dir, k: nat)
      requires Get(o).Some? && Get(o).value.Some? && DynamicRun(o, d, k)
      requires Get(Step(o, d, k + 1)) == Some(None)
      ensures PushResult(o, d) == Push(RunEntities(o, d, k))
      ensures |PushResult(o, d).moving| == k + 1 && PushResult(o, d).moving[0] == OccupantAt(o).entity
    {
      WalkAlongRun(o, d, k, k);
      assert RunEntities(o, d, k)[..k] + [OccupantAt(Step(o, d, k)).entity] == RunEntities(o, d, k);
    }

    /** `k` dynamic blocks and then a static one: the push is a `Wall`. */
    lemma PushChainHitsWall(o: IVec2, d: Dir, k: nat)
      requires Get(o).Some? && Get(o).value.Some? && DynamicRun(o, d, k)
      requires Get(Step(o, d, k + 1)).Some? && Get(Step(o, d, k + 1)).value.Some?
      requires Get(Step(o, d, k + 1)).value.value.block == Static
      ensures PushResult(o, d) == Wall
    {
      WalkAlongRun(o, d, k, k);
    }

    /** `k` dynamic blocks and then the edge of the grid: the push is not
        `OutOfBounds` but a `Push` of all entities except the last one,
        which is empty when the pusher's neighbour is already off the grid. */
    lemma PushChainLeavesGrid(o: IVec2, d: Dir, k: nat)
      requires Get(o).Some? && Get(o).value.Some? && DynamicRun(o, d, k)
      requires Get(Step(o, d, k + 1)).None?
      ensures PushResult(o, d) == Push(RunEntities(o, d, k)[..k])
      ensures |PushResult(o, d).moving| == k
      ensures k == 0 ==> PushResult(o, d) == Push([])
    {
      WalkAlongRun(o, d, k, k);
    }

    /** The origin's own block kind is never looked at: a static pusher
        with an empty neighbour pushes itself. */
    lemma StaticOriginPushes(o: IVec2, d: Dir)
      requires Get(o).Some? && Get(o).value.Some? && OccupantAt(o).block == Static
      requires Get(o.Add(DirVec(d))) == Some(None)
      ensures PushResult(o, d) == Push([OccupantAt(o).entity])
    {
    }

    /** A walk that has started never ends in `OutOfBounds`. */
    lemma {:induction false} WalkNeverOutOfBounds(pusher: Entity, dest: IVec2, d: Dir, moving: seq<Entity>)
      ensures Walk(pusher, dest, d, moving) != OutOfBounds
      decreases Room(dest, d)
    {
      match Get(dest)
      case None =>
      case Some(None) =>
      case Some(Some(occ)) =>
        if occ.block == Dynamic {
          WalkNeverOutOfBounds(occ.entity, dest.Add(DirVec(d)), d, moving + [pusher]);
        }
    }

    /** A push is `OutOfBounds` exactly when there is nothing to push: the
        origin is off the grid or empty. */
    lemma PushOutOfBoundsIff(o: IVec2, d: Dir)
      ensures PushResult(o, d) == OutOfBounds <==> Get(o).None? || Get(o).value.None?
    {
      if Get(o).Some? && Get(o).value.Some? {
        WalkNeverOutOfBounds(OccupantAt(o).entity, o.Add(DirVec(d)), d, []);
      }
    }

    /** Every cell of the grid holds `LastAt` of its coordinate. */
    ghost predicate Mirrors(es: seq<Entity>, pos: map<Entity, Pos>, block: map<Entity, Block>)
      reads this, cells
    {
      forall x, y :: 0 <= x < cells.Length0 && 0 <= y < cells.Length1 ==>
        cells[x, y] == LastAt(es, pos, block, IVec2(x, y))
    }

    /** The write loop shared by `init_collision_map` and
        `sync_collision_map`: each entity of the query, in order, is written
        to its cell, over an empty grid. */
    method Populate(w: World)
      requires AllInside(w.entities, w.pos, w.block, cells.Length0, cells.Length1)
      requires forall x, y :: 0 <= x < cells.Length0 && 0 <= y < cells.Length1 ==> cells[x, y] == None
      modifies cells
      ensures Mirrors(w.entities, w.pos, w.block)
    {
      var i := 0;
      while i < |w.entities|
        invariant 0 <= i <= |w.entities|
        invariant Mirrors(w.entities[..i], w.pos, w.block)
      {
        var e := w.entities[i];
        ghost var done := w.entities[..i + 1];
        assert done[..i] == w.entities[..i] && done[i] == e;
        if e in w.pos && e in w.block {
          var p := ToIVec2(w.pos[e]);
          cells[p.x, p.y] := Some(Occupant(e, w.block[e]));
        }
        forall x, y | 0 <= x < cells.Length0 && 0 <= y < cells.Length1
          ensures cells[x, y] == LastAt(done, w.pos, w.block, IVec2(x, y))
        {
          LastAtSnoc(done, w.pos, w.block, IVec2(x, y));
        }
        i := i + 1;
      }
      assert w.entities[..i] == w.entities;
    }

    /** `sync_collision_map`: empty every cell, then write every entity
        with a `Pos` and a block to its cell in query order; where several
        share a cell the last one written stays. */
    method Sync(w: World)
      requires AllInside(w.entities, w.pos, w.block, cells.Length0, cells.Length1)
      modifies cells
      ensures Mirrors(w.entities, w.pos, w.block)
    {
      var x := 0;
      while x < cells.Length0
        invariant 0 <= x <= cells.Length0
        invariant forall i, j :: 0 <= i < x && 0 <= j < cells.Length1 ==> cells[i, j] == None
      {
        var y := 0;
        while y < cells.Length1
          invariant 0 <= y <= cells.Length1
          invariant forall i, j :: 0 <= i < x && 0 <= j < cells.Length1 ==> cells[i, j] == None
          invariant forall j :: 0 <= j < y ==> cells[x, j] == None
        {
          cells[x, y] := None;
          y := y + 1;
        }
        x := x + 1;
      }
      Populate(w);
    }

    /** `init_collision_map`: with exactly one newly added level marker,
        replace the map by a grid of the level's size holding every entity
        with a `Pos` and a block; otherwise keep the map as it is. */
    method Init(added: seq<LevelMarker>, w: World)
      requires |added| == 1 ==> added[0].width <= I32_MAX && added[0].height <= I32_MAX
      requires |added| == 1 ==> AllInside(w.entities, w.pos, w.block, added[0].width, added[0].height)
      modifies this
      ensures |added| != 1 ==> cells == old(cells)
      ensures |added| == 1 ==>
        && fresh(cells) && cells.Length0 == added[0].width && cells.Length1 == added[0].height
        && Mirrors(w.entities, w.pos, w.block)
    {
      if |added| != 1 {
        return;
      }
      var size := added[0];
      var grid := new Cell[size.width, size.height]((x, y) => None);
      cells := grid;
      Populate(w);
    }
  }
}
