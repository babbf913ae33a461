/**
The timers of short chain delays: every operation holds the lock for its whole
body, a timer's callback dispatches after releasing it, and closing races with
both.
*/
module ChainTimers {
  import opened Common

  /**
  armed timers have not gone off, fired ones wait for the lock in their
  callback, passed ones found the timers open and are about to dispatch. The
  rest is where a run ended: dispatched, dropped by a callback that found the
  timers closed, or stopped by the close. wired says that there is somebody to
  dispatch to; without one no timer is ever set.
  */
  datatype State = State(
    wired: bool, table: set<nat>, closed: bool,
    armed: set<nat>, fired: set<nat>, passed: set<nat>, dispatched: set<nat>, dropped: set<nat>, stopped: set<nat>)

  datatype Event = Schedule(run: nat) | Fire(run: nat) | Look(run: nat) | Dispatch(run: nat) | Close

  function Known(s: State): set<nat> {
    s.armed + s.fired + s.passed + s.dispatched + s.dropped + s.stopped
  }

  /** A row is scheduled once: its id is new. */
  predicate Enabled(s: State, e: Event) {
    match e
    case Schedule(run) => run !in Known(s)
    case Fire(run) => run in s.armed
    case Look(run) => run in s.fired
    case Dispatch(run) => run in s.passed
    case Close => true
  }

  function Apply(s: State, e: Event): State {
    match e
    case Schedule(run) => if s.closed || !s.wired then s else s.(table := s.table + {run}, armed := s.armed + {run})
    case Fire(run) => s.(armed := s.armed - {run}, fired := s.fired + {run})
    case Look(run) =>
      var looked := s.(table := s.table - {run}, fired := s.fired - {run});
      if s.closed then looked.(dropped := s.dropped + {run}) else looked.(passed := s.passed + {run})
    case Dispatch(run) => s.(passed := s.passed - {run}, dispatched := s.dispatched + {run})
    case Close => s.(closed := true, table := {}, armed := s.armed - s.table, stopped := s.stopped + s.armed * s.table)
  }

  function Start(wired: bool): State {
    State(wired, {}, false, {}, {}, {}, {}, {}, {})
  }

  function Run(wired: bool, ev: seq<Event>): State {
    if ev == [] then Start(wired) else Apply(Run(wired, ev[..|ev| - 1]), ev[|ev| - 1])
  }

  predicate Possible(wired: bool, ev: seq<Event>) {
    ev == [] || (Possible(wired, ev[..|ev| - 1]) && Enabled(Run(wired, ev[..|ev| - 1]), ev[|ev| - 1]))
  }

  predicate Inv(s: State) {
    && s.armed <= s.table <= s.armed + s.fired
    && (s.closed ==> s.armed == {} && s.table == {}) && (!s.wired ==> Known(s) == {})
    && s.armed !! s.fired && (s.armed + s.fired) !! s.passed && (s.armed + s.fired + s.passed) !! s.dispatched
    && (s.armed + s.fired + s.passed + s.dispatched) !! s.dropped
    && (s.armed + s.fired + s.passed + s.dispatched + s.dropped) !! s.stopped
  }

  /** Every scheduled run is in exactly one place; none is armed once the timers are closed, or without a dispatch. */
  lemma {:induction false} InvAlways(wired: bool, ev: seq<Event>)
    requires Possible(wired, ev)
    ensures Inv(Run(wired, ev))
  {
    if ev != [] {
      InvAlways(wired, ev[..|ev| - 1]);
    }
  }

  /** Of the runs scheduled and not stopped, dropped or still waiting, all and only those are dispatched, once each. */
  lemma CountsAddUp(wired: bool, ev: seq<Event>)
    requires Possible(wired, ev)
    ensures var s := Run(wired, ev);
            |Known(s)| == |s.armed| + |s.fired| + |s.passed| + |s.dispatched| + |s.dropped| + |s.stopped|
  {
    InvAlways(wired, ev);
    var s := Run(wired, ev);
    var a := s.armed + s.fired;
    var b := a + s.passed;
    var c := b + s.dispatched;
    var d := c + s.dropped;
    assert |a| == |s.armed| + |s.fired|;
    assert |b| == |a| + |s.passed|;
    assert |c| == |b| + |s.dispatched|;
    assert |d| == |c| + |s.dropped|;
    assert |d + s.stopped| == |d| + |s.stopped|;
    assert Known(s) == d + s.stopped;
  }

  /** After the close only callbacks that had already found the timers open still dispatch. */
  lemma {:induction false} AfterClose(wired: bool, ev: seq<Event>, n: nat)
    requires Possible(wired, ev) && n <= |ev| && Possible(wired, ev[..n]) && Run(wired, ev[..n]).closed
    ensures Run(wired, ev).closed
    ensures Run(wired, ev).dispatched + Run(wired, ev).passed
            == Run(wired, ev[..n]).dispatched + Run(wired, ev[..n]).passed
    decreases |ev|
  {
    if n < |ev| {
      var before := ev[..|ev| - 1];
      assert before[..n] == ev[..n];
      AfterClose(wired, before, n);
    } else {
      assert ev[..n] == ev;
    }
  }

  /** Such a callback exists: a run dispatched after the close has returned. */
  lemma LateDispatch(run: nat) returns (ev: seq<Event>, n: nat)
    ensures Possible(true, ev) && n < |ev| && Run(true, ev[..n]).closed
    ensures run !in Run(true, ev[..n]).dispatched && run in Run(true, ev).dispatched
  {
    var a := [Schedule(run)];
    var b := a + [Fire(run)];
    var c := b + [Look(run)];
    var d := c + [Close];
    ev, n := d + [Dispatch(run)], 4;
    OneMore(true, [], Schedule(run));
    OneMore(true, a, Fire(run));
    OneMore(true, b, Look(run));
    OneMore(true, c, Close);
    OneMore(true, d, Dispatch(run));
    assert [] + [Schedule(run)] == a && ev[..4] == d;
  }

  lemma OneMore(wired: bool, ev: seq<Event>, e: Event)
    ensures Run(wired, ev + [e]) == Apply(Run(wired, ev), e)
    ensures Possible(wired, ev + [e]) <==> Possible(wired, ev) && Enabled(Run(wired, ev), e)
  {
    assert (ev + [e])[..|ev|] == ev;
  }

  /** The lock's critical sections; state is what they and the runtime's timers share. */
  class Timers {
    var state: State

    constructor (wired: bool)
      ensures state == Run(wired, [])
    {
      state := Start(wired);
    }

    method DoSchedule(run: nat) returns (accepted: bool)
      modifies this
      ensures accepted <==> !old(state).closed && old(state).wired
      ensures state == Apply(old(state), Schedule(run))
    {
      if state.closed || !state.wired { return false; }
      state := state.(table := state.table + {run}, armed := state.armed + {run});
      accepted := true;
    }

    /** The callback's section; it dispatches afterwards if the timers were open. */
    method DoLook(run: nat) returns (open: bool)
      modifies this
      ensures open <==> !old(state).closed
      ensures state == Apply(old(state), Look(run))
    {
      state := state.(table := state.table - {run}, fired := state.fired - {run});
      if state.closed {
        state := state.(dropped := state.dropped + {run});
        return false;
      }
      state := state.(passed := state.passed + {run});
      open := true;
    }

    /** Stops every timer that has not gone off. */
    method DoClose() returns (stopped: nat)
      modifies this
      ensures state == Apply(old(state), Close)
      ensures stopped == |old(state).armed * old(state).table|
    {
      ghost var s := state;
      state := state.(closed := true);
      stopped := 0;
      assert state == Closing(s, s.table);
      while state.table != {}
        invariant state.table <= s.table && state == Closing(s, state.table)
        invariant stopped == |s.armed * (s.table - state.table)|
        decreases state.table
      {
        ghost var some := Pick(state.table);
        var id :| id in state.table;
        ClosingNext(s, state.table, id);
        if id in state.armed {
          state := state.(armed := state.armed - {id}, stopped := state.stopped + {id});
          stopped := stopped + 1;
        }
        state := state.(table := state.table - {id});
      }
    }
  }

  /** The close after the timers outside rest have been dealt with. */
  function Closing(s: State, rest: set<nat>): State {
    s.(closed := true, table := rest, armed := s.armed - (s.table - rest),
       stopped := s.stopped + s.armed * (s.table - rest))
  }

  lemma ClosingNext(s: State, rest: set<nat>, id: nat)
    requires id in rest && rest <= s.table
    ensures id in Closing(s, rest).armed <==> id in s.armed
    ensures var m := Closing(s, rest);
            Closing(s, rest - {id})
            == if id in m.armed then m.(armed := m.armed - {id}, stopped := m.stopped + {id}, table := rest - {id})
               else m.(table := rest - {id})
    ensures |s.armed * (s.table - (rest - {id}))| == |s.armed * (s.table - rest)| + if id in s.armed then 1 else 0
  {
    var done := s.table - rest;
    assert s.table - (rest - {id}) == done + {id};
    if id in s.armed {
      assert s.armed * (done + {id}) == s.armed * done + {id};
      assert s.armed - (done + {id}) == s.armed - done - {id};
      assert s.stopped + (s.armed * done + {id}) == s.stopped + s.armed * done + {id};
    } else {
      assert s.armed * (done + {id}) == s.armed * done;
      assert s.armed - (done + {id}) == s.armed - done;
    }
  }
}
