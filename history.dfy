/** Per-entity undo history of a component `C` (src/sokoban/history.rs):
    each tracked entity carries a stack of earlier values of `C`. */
module History {
  import opened Ecs

  datatype HistoryEvent = Record | Rewind | Reset

  /** What the query `(&mut History<C>, &mut C)` sees of one entity: its
      history stack (oldest first) and the current value. */
  datatype Entry<C> = Entry(history: seq<C>, value: C)

  /** The effect of one history event on one entity. */
  function Apply<C>(ev: HistoryEvent, s: Entry<C>): (r: Entry<C>)
    ensures ev != Record && s.history == [] ==> r == s
    ensures ev == Record ==> r.history == s.history + [s.value] && r.value == s.value
    ensures ev == Rewind && s.history != [] ==>
      |r.history| == |s.history| - 1 && r.value == s.history[|s.history| - 1]
    ensures ev == Reset && s.history != [] ==>
      r.history == s.history + [s.value] && r.history[0] == s.history[0] && r.value == s.history[0]
    ensures ev != Rewind ==> r.history[..|s.history|] == s.history
    ensures ev == Rewind ==> r.history == s.history[..|r.history|]
  {
    match ev
    case Record => Entry(s.history + [s.value], s.value)
    case Rewind =>
      if s.history == [] then s
      else Entry(s.history[..|s.history| - 1], s.history[|s.history| - 1])
    case Reset =>
      if s.history == [] then s
      else Entry(s.history + [s.value], s.history[0])
  }

  /** Events applied in arrival order. */
  function Replay<C>(evs: seq<HistoryEvent>, s: Entry<C>): Entry<C> {
    if evs == [] then s else Apply(evs[|evs| - 1], Replay(evs[..|evs| - 1], s))
  }

  /** Replaying two batches one after the other is replaying their
      concatenation. */
  lemma {:induction false} ReplayAppend<C>(a: seq<HistoryEvent>, b: seq<HistoryEvent>, s: Entry<C>)
    ensures Replay(a + b, s) == Replay(b, Replay(a, s))
  {
    if b == [] {
      assert a + b == a;
    } else {
      var init, last := b[..|b| - 1], b[|b| - 1];
      ReplayAppend(a, init, s);
      assert (a + b)[..|a + b| - 1] == a + init && (a + b)[|a + b| - 1] == last;
      assert Replay(a + b, s) == Apply(last, Replay(a + init, s));
      assert Replay(b, Replay(a, s)) == Apply(last, Replay(init, Replay(a, s)));
    }
  }

  /** Rewind undoes Record, even when the component changed in between:
      the value comes back to what was recorded and the stack shrinks back. */
  lemma RecordThenRewind<C>(s: Entry<C>, changed: C)
    ensures Apply(Rewind, Entry(Apply(Record, s).history, changed)) == s
  {
    assert (s.history + [s.value])[..|s.history|] == s.history;
  }

  /** Rewind undoes Reset: the value before the reset comes back. */
  lemma ResetThenRewind<C>(s: Entry<C>)
    ensures Apply(Rewind, Apply(Reset, s)) == s
  {
    if s.history != [] {
      assert (s.history + [s.value])[..|s.history|] == s.history;
    }
  }

  /** A run of Resets keeps going back to the first recorded value. */
  lemma {:induction false} ResetsKeepFirst<C>(s: Entry<C>, n: nat)
    requires s.history != []
    ensures var r := Replay(seq(n, _ => Reset), s);
      r.history != [] && r.history[0] == s.history[0] && (n > 0 ==> r.value == s.history[0])
      && |r.history| == |s.history| + n
  {
    if n > 0 {
      assert seq(n, _ => Reset)[..n - 1] == seq(n - 1, _ => Reset);
      ResetsKeepFirst(s, n - 1);
    }
  }

  /** `n` Records followed by `n` Rewinds (no movement in between) give
      back the entry unchanged. */
  lemma {:induction false} RecordsThenRewinds<C>(s: Entry<C>, n: nat)
    decreases n
    ensures Replay(seq(n, _ => Record) + seq(n, _ => Rewind), s) == s
  {
    if n > 0 {
      var recs, rews := seq(n - 1, _ => Record), seq(n - 1, _ => Rewind);
      assert seq(n, _ => Record) + seq(n, _ => Rewind) == [Record] + (recs + rews) + [Rewind];
      ReplayAppend([Record] + (recs + rews), [Rewind], s);
      ReplayAppend([Record], recs + rews, s);
      assert Replay([Record], s) == Apply(Record, s) by {
        assert [Record][..0] == [];
      }
      RecordsThenRewinds(Apply(Record, s), n - 1);
      RecordThenRewind(s, s.value);
    }
  }

  /** The entities matched by `Query<(&mut History<C>, &mut C)>`. */
  class Tracked<C> {
    /** Query iteration order. */
    var entities: seq<Entity>
    /** The `(History<C>, C)` pair of each matched entity. */
    var rows: map<Entity, Entry<C>>

    ghost predicate Valid()
      reads this
    {
      NoDup(entities) && rows.Keys == Members(entities)
    }

    /** One event applied to every matched entity, in query order. */
    method ApplyToAll(ev: HistoryEvent)
      requires Valid()
      modifies this
      ensures Valid() && entities == old(entities)
      ensures rows.Keys == old(rows).Keys
      ensures forall e :: e in rows ==> rows[e] == Apply(ev, old(rows)[e])
    {
      rows := ApplyRows(entities, ev, rows);
    }

    /** `handle_history_commands`: every event of the frame, in arrival
        order, applied to every matched entity; an entity's result depends
        only on its own entry. */
    method HandleHistoryCommands(events: seq<HistoryEvent>)
      requires Valid()
      modifies this
      ensures Valid() && entities == old(entities)
      ensures rows.Keys == old(rows).Keys
      ensures forall e :: e in rows ==> rows[e] == Replay(events, old(rows)[e])
    {
      var k := 0;
      while k < |events|
        invariant 0 <= k <= |events|
        invariant Valid() && entities == old(entities)
        invariant rows.Keys == old(rows).Keys
        invariant forall e :: e in rows ==> rows[e] == Replay(events[..k], old(rows)[e])
      {
        ApplyToAll(events[k]);
        assert events[..k + 1][..k] == events[..k];
        k := k + 1;
      }
      assert events[..k] == events;
    }
  }

  /** The loop of one event over the query, on the rows of the matched
      entities `es`: each entity's row is updated from its own old row. */
  method ApplyRows<C>(es: seq<Entity>, ev: HistoryEvent, rows: map<Entity, Entry<C>>) returns (r: map<Entity, Entry<C>>)
    requires NoDup(es) && rows.Keys == Members(es)
    ensures r.Keys == rows.Keys
    ensures forall e :: e in r ==> r[e] == Apply(ev, rows[e])
  {
    r := rows;
    var i := 0;
    while i < |es|
      invariant 0 <= i <= |es|
      invariant r.Keys == rows.Keys
      invariant forall e :: e in r ==> r[e] == if e in es[..i] then Apply(ev, rows[e]) else rows[e]
    {
      var e := es[i];
      assert e !in es[..i];
      var h, v := r[e].history, r[e].value;
      match ev {
        case Record =>
          r := r[e := Entry(h + [v], v)];
        case Rewind =>
          if h != [] {
            r := r[e := Entry(h[..|h| - 1], h[|h| - 1])];
          }
        case Reset =>
          if h != [] {
            r := r[e := Entry(h + [v], h[0])];
          }
      }
      assert es[..i + 1] == es[..i] + [e];
      i := i + 1;
    }
    assert es[..i] == es;
  }
}
