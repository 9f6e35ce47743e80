/** Delayed events: a queue of (event, one-shot timer) pairs, ticked once
    per update (src/sokoban/event_scheduler.rs). Durations are whole
    numbers of time units. */
module EventScheduler {

  /** Bevy's `Timer` in `TimerMode::Once`. */
  datatype Timer = Timer(elapsed: nat, duration: nat)

  predicate Finished(t: Timer) {
    t.elapsed >= t.duration
  }

  /** Advances a once-timer by `delta`; a once-timer stops at its duration. */
  function Tick(t: Timer, delta: nat): (r: Timer)
    ensures r.duration == t.duration
    ensures Finished(r) <==> t.elapsed + delta >= t.duration
    ensures !Finished(r) ==> r.elapsed == t.elapsed + delta
  {
    Timer(if t.elapsed + delta >= t.duration then t.duration else t.elapsed + delta, t.duration)
  }

  /** The events an update by `delta` sends: those whose ticked timer
      finished, in queue order. */
  function Fired<E>(q: seq<(E, Timer)>, delta: nat): seq<E> {
    if q == [] then []
    else
      var last := q[|q| - 1];
      Fired(q[..|q| - 1], delta) + (if Finished(Tick(last.1, delta)) then [last.0] else [])
  }

  /** The entries an update by `delta` keeps: the unfinished ones, ticked,
      in queue order. */
  function Kept<E>(q: seq<(E, Timer)>, delta: nat): (r: seq<(E, Timer)>)
    ensures forall i :: 0 <= i < |r| ==> !Finished(r[i].1)
  {
    if q == [] then []
    else
      var last := q[|q| - 1];
      var t := Tick(last.1, delta);
      Kept(q[..|q| - 1], delta) + (if Finished(t) then [] else [(last.0, t)])
  }

  function EventsOf<E>(q: seq<(E, Timer)>): seq<E> {
    if q == [] then [] else EventsOf(q[..|q| - 1]) + [q[|q| - 1].0]
  }

  /** Every entry is either sent or kept, exactly once. */
  lemma {:induction false} UpdatePartitions<E>(q: seq<(E, Timer)>, delta: nat)
    ensures |Fired(q, delta)| + |Kept(q, delta)| == |q|
    ensures multiset(Fired(q, delta)) + multiset(EventsOf(Kept(q, delta))) == multiset(EventsOf(q))
  {
    if q != [] {
      var init, last := q[..|q| - 1], q[|q| - 1];
      UpdatePartitions(init, delta);
      assert EventsOf(q) == EventsOf(init) + [last.0];
      var t := Tick(last.1, delta);
      if Finished(t) {
        assert Fired(q, delta) == Fired(init, delta) + [last.0];
        assert Kept(q, delta) == Kept(init, delta);
      } else {
        assert Fired(q, delta) == Fired(init, delta);
        assert Kept(q, delta) == Kept(init, delta) + [(last.0, t)];
        EventsOfAppend(Kept(init, delta), (last.0, t));
      }
    }
  }

  lemma EventsOfAppend<E>(q: seq<(E, Timer)>, x: (E, Timer))
    ensures EventsOf(q + [x]) == EventsOf(q) + [x.0]
  {
    assert (q + [x])[..|q + [x]| - 1] == q;
  }

  /** An update treats the queue piecewise: sent and kept entries of an
      earlier part come before those of a later part, so both outputs keep
      queue order. */
  lemma {:induction false} UpdateSplits<E>(a: seq<(E, Timer)>, b: seq<(E, Timer)>, delta: nat)
    ensures Fired(a + b, delta) == Fired(a, delta) + Fired(b, delta)
    ensures Kept(a + b, delta) == Kept(a, delta) + Kept(b, delta)
  {
    if b == [] {
      assert a + b == a;
    } else {
      var init, last := b[..|b| - 1], b[|b| - 1];
      UpdateSplits(a, init, delta);
      assert (a + b)[..|a + b| - 1] == a + init;
      assert (a + b)[|a + b| - 1] == last;
      var t := Tick(last.1, delta);
      var sent: seq<E>, kept: seq<(E, Timer)> := if Finished(t) then [last.0] else [], if Finished(t) then [] else [(last.0, t)];
      assert Fired(a + b, delta) == Fired(a + init, delta) + sent;
      assert Fired(b, delta) == Fired(init, delta) + sent;
      assert Kept(a + b, delta) == Kept(a + init, delta) + kept;
      assert Kept(b, delta) == Kept(init, delta) + kept;
    }
  }

  /** Kept entries advanced by `delta` and did not finish; every entry of
      the old queue that did not finish is kept. */
  lemma {:induction false} KeptAreTicked<E>(q: seq<(E, Timer)>, delta: nat, i: nat)
    requires i < |q| && !Finished(Tick(q[i].1, delta))
    ensures (q[i].0, Tick(q[i].1, delta)) in Kept(q, delta)
    ensures q[i].0 !in Fired(q, delta) || exists j :: 0 <= j < |q| && j != i && q[j].0 == q[i].0
  {
    var init := q[..|q| - 1];
    if i == |q| - 1 {
      if q[i].0 in Fired(q, delta) {
        assert q[i].0 in Fired(init, delta);
        FiredFromQueue(init, delta, q[i].0);
      }
    } else {
      KeptAreTicked(init, delta, i);
    }
  }

  /** Every sent event is the event of some entry of the old queue. */
  lemma {:induction false} FiredFromQueue<E>(q: seq<(E, Timer)>, delta: nat, e: E)
    requires e in Fired(q, delta)
    ensures exists j :: 0 <= j < |q| && q[j].0 == e && Finished(Tick(q[j].1, delta))
  {
    var init := q[..|q| - 1];
    if e in Fired(init, delta) {
      FiredFromQueue(init, delta, e);
      var j :| 0 <= j < |init| && init[j].0 == e && Finished(Tick(init[j].1, delta));
      assert q[j] == init[j];
    } else {
      assert q[|q| - 1].0 == e;
    }
  }

  /** An event scheduled for `duration` goes out on the first update whose
      delta reaches it, after everything already due. */
  lemma ScheduledEventFires<E>(q: seq<(E, Timer)>, e: E, duration: nat, delta: nat)
    requires delta >= duration
    ensures Fired(q + [(e, Timer(0, duration))], delta) == Fired(q, delta) + [e]
    ensures Kept(q + [(e, Timer(0, duration))], delta) == Kept(q, delta)
  {
    UpdateSplits(q, [(e, Timer(0, duration))], delta);
  }

  class Scheduler<E> {
    /** The pending `(event, timer)` pairs, front first. */
    var events: seq<(E, Timer)>

    /** `EventScheduler::default`: an empty queue. */
    constructor ()
      ensures events == []
    {
      events := [];
    }

    /** `schedule`: append the event with a fresh once-timer at the back. */
    method Schedule(event: E, duration: nat)
      modifies this
      ensures events == old(events) + [(event, Timer(0, duration))]
      ensures events[..|old(events)|] == old(events)
    {
      events := events + [(event, Timer(0, duration))];
    }

    /** `send_scheduled_events`: tick every pending timer by `delta`, send
      the events whose timer finished, and keep the rest. */
    method Update(delta: nat) returns (sent: seq<E>)
      modifies this
      ensures sent == Fired(old(events), delta)
      ensures events == Kept(old(events), delta)
    {
      var drained := events;
      var kept: seq<(E, Timer)> := [];
      sent := [];
      var i := 0;
      while i < |drained|
        invariant 0 <= i <= |drained|
        invariant sent == Fired(drained[..i], delta)
        invariant kept == Kept(drained[..i], delta)
      {
        var (event, timer) := drained[i];
        timer := Tick(timer, delta);
        if Finished(timer) {
          sent := sent + [event];
        } else {
          kept := kept + [(event, timer)];
        }
        assert drained[..i + 1][..i] == drained[..i];
        i := i + 1;
      }
      assert drained[..i] == drained;
      events := kept;
    }
  }
}
