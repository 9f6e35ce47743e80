/** The undo/reset input system of the game (`undo` in src/sokoban/mod.rs):
    turns the player's undo or reset press into a history event and stops
    everything that is sliding. */
module Undo {
  import opened Sokoban
  import opened Ecs
  import opened History

  /** The history event a frame's input sends, if any. `actions` holds the
      `ActionState` components; anything but exactly one sends nothing.
      Undo wins over Reset when both are pressed in the same frame. */
  function UndoCommand(actions: seq<Actions>): (r: Option<HistoryEvent>)
    ensures r.Some? <==> |actions| == 1 && (actions[0].undo || actions[0].reset)
    ensures r == Some(Rewind) <==> |actions| == 1 && actions[0].undo
    ensures r == Some(Reset) <==> |actions| == 1 && !actions[0].undo && actions[0].reset
    ensures r != Some(Record)
  {
    if |actions| != 1 then None
    else if actions[0].undo then Some(Rewind)
    else if actions[0].reset then Some(Reset)
    else None
  }

  /** Every momentum of `m` cleared. */
  function Stopped(m: map<Entity, Option<Dir>>): (r: map<Entity, Option<Dir>>)
    ensures r.Keys == m.Keys
    ensures forall e :: e in r ==> r[e] == None
  {
    map e | e in m :: None
  }

  /** `undo`: sends the frame's history event and, when it sends one, takes
      every entity's momentum. With nothing sent, momentum is left alone. */
  method HandleUndo(w: World, actions: seq<Actions>) returns (sent: seq<HistoryEvent>)
    requires w.Valid()
    modifies w`momentum
    ensures w.Valid()
    ensures sent == if UndoCommand(actions).Some? then [UndoCommand(actions).value] else []
    ensures sent != [] ==> w.momentum == Stopped(old(w.momentum))
    ensures sent == [] ==> w.momentum == old(w.momentum)
  {
    sent := [];
    var cmd := UndoCommand(actions);
    if cmd.None? {
      return;
    }
    sent := [cmd.value];
    w.momentum := TakeAll(w.entities, w.momentum);
  }

  /** The loop of `undo` over the query: take the momentum of every entity
      of `es` that has one. */
  method TakeAll(es: seq<Entity>, m: map<Entity, Option<Dir>>) returns (r: map<Entity, Option<Dir>>)
    requires m.Keys <= Members(es)
    ensures r == Stopped(m)
  {
    r := m;
    var i := 0;
    while i < |es|
      invariant 0 <= i <= |es|
      invariant r.Keys == m.Keys
      invariant forall e :: e in r ==> r[e] == if e in es[..i] then None else m[e]
    {
      var e := es[i];
      if e in r {
        r := r[e := None];
      }
      assert es[..i + 1] == es[..i] + [e];
      i := i + 1;
    }
    assert es[..i] == es;
  }

  /** Pressing Undo right after a Record puts every tracked entity back
      where it was recorded, whatever moved it in between. */
  lemma UndoAfterRecordRestores<C>(a: Actions, s: Entry<C>, moved: C)
    requires a.undo
    ensures UndoCommand([a]) == Some(Rewind)
    ensures Apply(UndoCommand([a]).value, Entry(Apply(Record, s).history, moved)) == s
  {
    RecordThenRewind(s, moved);
  }
}
